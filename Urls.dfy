/**
 * The URL normaliser: `normalize` and `normalize_if_needed` in src/main.rs.
 * A page URL is the record that URL parsing yields; only its scheme and its
 * optional host matter to the normaliser, while a fetch uses the whole URL.
 */
module Urls {
  import opened Wrappers

  /**
   * A parsed URL: its whole serialisation (scheme, authority, port, path and
   * query, as the parser writes it back out), its scheme and, when it has an
   * authority, its host.
   */
  datatype Url = Url(href: string, scheme: string, host: Option<string>)

  predicate HasHost(url: Url) {
    url.host.Some?
  }

  predicate StartsWith(s: string, prefix: string) {
    |prefix| <= |s| && s[..|prefix|] == prefix
  }

  predicate EndsWith(s: string, suffix: string) {
    |suffix| <= |s| && s[|s| - |suffix|..] == suffix
  }

  /** A reference that already names an http or https resource. */
  predicate IsHttpAbsolute(js: string) {
    StartsWith(js, "http://") || StartsWith(js, "https://")
  }

  /** What `normalize` needs of its arguments: the host is read unless the reference is protocol-relative. */
  predicate CanNormalize(js: string, url: Url) {
    HasHost(url) || StartsWith(js, "//")
  }

  /**
   * Turns a reference into an absolute URL relative to the page `url`.
   * The result always begins with the page's scheme and "://" and always
   * ends with the reference; what lies between depends on the reference's
   * first characters.
   */
  function Normalize(js: string, url: Url): (r: string)
    requires CanNormalize(js, url)
    ensures StartsWith(r, url.scheme + "://")
    ensures EndsWith(r, js)
    // a protocol-relative reference keeps its own authority: only the scheme and ':' are added
    ensures StartsWith(js, "//") ==> |r| == |url.scheme| + 1 + |js|
    // any other reference is placed under the page's host
    ensures !StartsWith(js, "//") ==>
      StartsWith(r, url.scheme + "://" + url.host.value) &&
      |r| == |url.scheme| + 3 + |url.host.value| + (if StartsWith(js, "/") then 0 else 1) + |js|
    // and a reference without a leading '/' is joined to the host with exactly one '/'
    ensures !StartsWith(js, "/") ==> r[|url.scheme| + 3 + |url.host.value|] == '/'
  {
    if StartsWith(js, "//") then
      url.scheme + ":" + js
    else if StartsWith(js, "/") then
      url.scheme + "://" + url.host.value + js
    else
      url.scheme + "://" + url.host.value + "/" + js
  }

  /** What `normalize_if_needed` needs: nothing for an http(s) reference, else what `normalize` needs. */
  predicate CanNormalizeIfNeeded(js: string, url: Url) {
    IsHttpAbsolute(js) || CanNormalize(js, url)
  }

  /** Leaves an http(s) reference alone and normalises every other one. */
  function NormalizeIfNeeded(js: string, url: Url): (r: string)
    requires CanNormalizeIfNeeded(js, url)
    ensures IsHttpAbsolute(js) ==> r == js
    ensures !IsHttpAbsolute(js) ==> r == Normalize(js, url)
  {
    if IsHttpAbsolute(js) then js else Normalize(js, url)
  }

  /** Normalising always rewrites: the result is strictly longer than the reference. */
  lemma NormalizeNeverIdentity(js: string, url: Url)
    requires CanNormalize(js, url)
    ensures |Normalize(js, url)| > |js|
    ensures Normalize(js, url) != js
  {
    var r := Normalize(js, url);
    assert |url.scheme + "://"| <= |r|;
    if StartsWith(js, "//") {
      assert |r| == |url.scheme| + 1 + |js|;
    }
  }

  /** `normalize_if_needed` returns its argument unchanged exactly when it is already http(s). */
  lemma NormalizeIfNeededUnchangedIff(js: string, url: Url)
    requires CanNormalizeIfNeeded(js, url)
    ensures NormalizeIfNeeded(js, url) == js <==> IsHttpAbsolute(js)
  {
    if !IsHttpAbsolute(js) {
      NormalizeNeverIdentity(js, url);
    }
  }

  /** A page served over http or https normalises every reference into an http(s) URL. */
  lemma NormalizeIsHttpAbsolute(js: string, url: Url)
    requires url.scheme == "http" || url.scheme == "https"
    requires CanNormalize(js, url)
    ensures IsHttpAbsolute(Normalize(js, url))
  {
    var r := Normalize(js, url);
    var p := url.scheme + "://";
    assert r[..|p|] == p;
    if url.scheme == "http" {
      assert p == "http://";
    } else {
      assert p == "https://";
    }
  }

  /** For an http or https page, `normalize_if_needed` is a fixed point on its own output. */
  lemma NormalizeIfNeededIdempotent(js: string, url: Url)
    requires url.scheme == "http" || url.scheme == "https"
    requires CanNormalizeIfNeeded(js, url)
    ensures IsHttpAbsolute(NormalizeIfNeeded(js, url))
    ensures NormalizeIfNeeded(NormalizeIfNeeded(js, url), url) == NormalizeIfNeeded(js, url)
  {
    if !IsHttpAbsolute(js) {
      NormalizeIsHttpAbsolute(js, url);
    }
  }

  /**
   * The three shapes of a normalised reference, written out: protocol-relative,
   * host-absolute path, and bare relative path.
   */
  lemma NormalizeShapes(js: string, url: Url)
    requires CanNormalize(js, url)
    ensures StartsWith(js, "//") ==> Normalize(js, url) == url.scheme + ":" + js
    ensures !StartsWith(js, "//") && StartsWith(js, "/") ==>
      Normalize(js, url) == url.scheme + "://" + url.host.value + js
    ensures !StartsWith(js, "/") ==>
      Normalize(js, url) == url.scheme + "://" + url.host.value + "/" + js
  {
    if !StartsWith(js, "/") {
      assert !StartsWith(js, "//");
    }
  }
}
