/** The application's small text helpers: slug normalisation, the
    `ensure_http` link filter and the target URL of the QR code. */
module Helpers {
  import opened Wrappers
  import opened PyStrings

  /** `normalize_slug`: `(s or "").strip().lower()`. Every caller passes
      a string, for which `s or ""` is `s` itself. A normalised slug has
      neither surrounding whitespace nor capitals and is never longer than
      the input, so the empty input gives the empty slug. */
  function NormalizeSlug(s: string): (r: string)
    ensures |r| <= |s|
    ensures IsStripped(r)
    ensures forall i :: 0 <= i < |r| ==> !IsUpper(r[i])
  {
    LowerKeepsStripped(Strip(s));
    Lower(Strip(s))
  }

  /** `normalize_slug` on a value that may be `None`, which reads as "". */
  function NormalizeSlugOrEmpty(s: Option<string>): (r: string)
    ensures s.None? ==> r == ""
    ensures s.Some? ==> r == NormalizeSlug(s.value)
  {
    if s.None? then "" else NormalizeSlug(s.value)
  }

  /** Normalising a normalised slug changes nothing. */
  lemma NormalizeSlugIdempotent(s: string)
    ensures NormalizeSlug(NormalizeSlug(s)) == NormalizeSlug(s)
  {
    StripOfStripped(NormalizeSlug(s));
    LowerIdempotent(Strip(s));
  }

  /** The slug is empty exactly when the input is only whitespace. */
  lemma NormalizeSlugEmptyIff(s: string)
    ensures NormalizeSlug(s) == "" <==> forall i :: 0 <= i < |s| ==> IsSpace(s[i])
  {
    StripEmptyIffBlank(s);
  }

  /** Slugs that differ only in letter case or surrounding whitespace
      normalise to the same key, so lookups are case-insensitive. */
  lemma NormalizeSlugIgnoresCaseAndPadding(s: string)
    ensures NormalizeSlug(Lower(s)) == NormalizeSlug(s)
    ensures NormalizeSlug(Strip(s)) == NormalizeSlug(s)
  {
    LowerStrip(s);
    LowerIdempotent(Strip(s));
    StripIdempotent(s);
  }

  /** `ensure_http`: "" for a missing or empty link, the stripped link when
      it already names the `http` or `https` scheme, and the stripped link
      behind `https://` otherwise. */
  function EnsureHttp(u: Option<string>): (r: string)
    ensures u.None? || u == Some("") ==> r == ""
    ensures u.Some? && u.value != "" ==>
              var t := Strip(u.value);
              (StartsWith(t, "http://") || StartsWith(t, "https://") ==> r == t)
              && (!StartsWith(t, "http://") && !StartsWith(t, "https://") ==> r == "https://" + t)
    ensures u.Some? && u.value != "" ==> StartsWith(r, "http://") || StartsWith(r, "https://")
  {
    if u.None? || u.value == "" then ""
    else
      var t := Strip(u.value);
      if StartsWith(t, "http://") || StartsWith(t, "https://") then t else "https://" + t
  }

  /** Applying the filter to its own output changes nothing. */
  lemma EnsureHttpIdempotent(u: Option<string>)
    ensures EnsureHttp(Some(EnsureHttp(u))) == EnsureHttp(u)
  {
    var r := EnsureHttp(u);
    if r != "" {
      var t := Strip(u.value);
      if r == t {
        StripOfStripped(t);
      } else {
        assert r == "https://" + t;
        assert r[0] == 'h';
        assert t != [] ==> r[|r| - 1] == t[|t| - 1];
        StripOfStripped(r);
        assert StartsWith(r, "https://");
      }
    }
  }

  /** `BASE_URL = os.getenv("BASE_URL", "").rstrip("/")`: the configured
      origin without trailing slashes, "" when unset. */
  function BaseUrlSetting(env: Option<string>): (r: string)
    ensures r == [] || r[|r| - 1] != '/'
    ensures env.None? ==> r == ""
    ensures env.Some? ==> StartsWith(env.value, r)
                          && forall i :: |r| <= i < |env.value| ==> env.value[i] == '/'
  {
    RStripChar(env.GetOr(""), '/')
  }

  /** `BASE_URL or request.host_url.rstrip("/")`: the configured origin when
      it is non-empty, otherwise the request's own origin without its
      trailing slashes. */
  function QrBase(baseUrl: string, hostUrl: string): (r: string)
    ensures baseUrl != "" ==> r == baseUrl
    ensures baseUrl == "" ==>
              StartsWith(hostUrl, r) && (r == [] || r[|r| - 1] != '/')
              && forall i :: |r| <= i < |hostUrl| ==> hostUrl[i] == '/'
  {
    if baseUrl != "" then baseUrl else RStripChar(hostUrl, '/')
  }

  /** `f"{base}/{slug}"`, the text encoded in the QR code. */
  function QrUrl(base: string, slug: string): (r: string)
    ensures |r| == |base| + 1 + |slug|
    ensures StartsWith(r, base) && r[|base|] == '/' && r[|base| + 1..] == slug
  {
    base + "/" + slug
  }

  /** The QR target is the base, one slash, then the slug: with `BASE_URL`
      read as the application reads it, the slash at the join is never
      doubled for a slug that does not itself start with one. */
  lemma QrUrlSingleSlashAtJoin(env: Option<string>, hostUrl: string, slug: string)
    ensures var b := QrBase(BaseUrlSetting(env), hostUrl);
            var u := QrUrl(b, slug);
            && u[|b|] == '/'
            && (|b| > 0 ==> u[|b| - 1] != '/')
            && (|slug| > 0 && slug[0] != '/' ==> u[|b| + 1] != '/')
  {
    var b := QrBase(BaseUrlSetting(env), hostUrl);
    var u := QrUrl(b, slug);
    assert |b| > 0 ==> u[|b| - 1] == b[|b| - 1];
    assert |slug| > 0 ==> u[|b| + 1] == slug[0];
  }

  /** `BASE_URL` "https://cards.example.com", with or without trailing
      slashes, is read as the bare origin. */
  lemma BaseUrlExample()
    ensures BaseUrlSetting(Some("https://cards.example.com")) == "https://cards.example.com"
    ensures BaseUrlSetting(Some("https://cards.example.com//")) == "https://cards.example.com"
  {
    var b := "https://cards.example.com";
    assert RStripChar(b, '/') == b;
    assert (b + "//")[..|b| + 1] == b + "/";
    assert (b + "/")[..|b|] == b;
    assert RStripChar(b + "/", '/') == b;
    assert RStripChar(b + "//", '/') == b;
    assert "https://cards.example.com//" == b + "//";
  }

  /** The URL for "john-doe" under "https://cards.example.com" is the same
      whether or not the configured base ends in slashes. */
  lemma QrUrlExample(hostUrl: string)
    ensures QrUrl(QrBase(BaseUrlSetting(Some("https://cards.example.com")), hostUrl), "john-doe")
            == "https://cards.example.com/john-doe"
    ensures QrUrl(QrBase(BaseUrlSetting(Some("https://cards.example.com//")), hostUrl), "john-doe")
            == "https://cards.example.com/john-doe"
  {
    BaseUrlExample();
    assert QrBase("https://cards.example.com", hostUrl) == "https://cards.example.com";
  }

  /** A base made of slashes only counts as unset: the request origin is used. */
  lemma QrBaseSlashesOnlyFallsBack(hostUrl: string)
    ensures QrBase(BaseUrlSetting(Some("//")), hostUrl) == RStripChar(hostUrl, '/')
  {
    assert BaseUrlSetting(Some("//")) == "";
  }
}
