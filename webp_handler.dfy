/**
 * ngx_http_webp_handler (ngx_http_webp_cache.c): the content-phase
 * handler. A chain of guards decides whether to decline, fail or throttle;
 * an admitted request is looked up in the shared index by the SHA-1 of its
 * unparsed URI, and a miss posts a conversion job and serves the
 * destination path.
 *
 * Complex-value evaluation is a parameter (`eval`, None when evaluation
 * fails); SHA-1 and CRC-32 are parameters as in the cache model.
 */
module WebpHandler {
  import opened Nginx
  import opened WebpModule
  import opened WebpCache
  import opened WebpConversion

  /**
   * The request fields the handler reads. r->uri is not NUL-terminated:
   * `uriTail` is the memory that follows its bytes (for a plain request,
   * the rest of the request line). `accept` stands for the value that
   * ngx_http_get_variable returns for the variable named "Accept", None
   * when the lookup returns NULL; it is not the request's Accept header,
   * which nginx exposes as the variable `http_accept`. Its bytes are taken
   * to be all the substring test sees.
   */
  datatype Request = Request(isGet: bool, uri: string, uriTail: string, unparsedUri: string,
                             accept: Option<string>)

  /**
   * ngx_strstr on the URI's data pointer finds one of the image extensions
   * anywhere in `uriMem`, read up to its first NUL (a substring test, not a
   * suffix test, and not bounded by uri.len).
   */
  predicate IsImageUri(uriMem: string)
    ensures IsImageUri(uriMem) ==> |CString(uriMem)| >= 4
  {
    StrStr(uriMem, ".jpg") || StrStr(uriMem, ".jpeg") || StrStr(uriMem, ".png") ||
    StrStr(uriMem, ".avif") || StrStr(uriMem, ".jxl")
  }

  const WEBP_MIME: string := "image/webp"

  /** The request may be converted at all: enabled location, GET, image URI, an "Accept" value naming image/webp. */
  predicate Eligible(conf: LocConf, req: Request)
    requires IsMerged(conf)
    ensures Eligible(conf, req) ==> req.isGet && |CString(req.uri + req.uriTail)| >= 4
    ensures Eligible(conf, req) ==> req.accept.Some? && |req.accept.value| >= |WEBP_MIME|
  {
    conf.enable.value && req.isGet && IsImageUri(req.uri + req.uriTail) &&
    req.accept.Some? && Contains(req.accept.value, WEBP_MIME)
  }

  // ---------------------------------------------------------------------
  // ngx_atoi and its inverse
  // ---------------------------------------------------------------------

  predicate IsDigit(c: char) {
    '0' <= c <= '9'
  }

  predicate AllDigits(s: string) {
    forall i :: 0 <= i < |s| ==> IsDigit(s[i])
  }

  function DigitValue(c: char): nat
    requires IsDigit(c)
  {
    (c as int) - ('0' as int)
  }

  function DigitChar(d: nat): (c: char)
    requires d < 10
    ensures IsDigit(c) && DigitValue(c) == d
  {
    ((d + '0' as int) as char)
  }

  /** The value of a decimal digit string, most significant digit first. */
  function DecimalValue(s: string): nat
    requires AllDigits(s)
    decreases |s|
  {
    if s == [] then 0 else DecimalValue(s[..|s| - 1]) * 10 + DigitValue(s[|s| - 1])
  }

  /**
   * ngx_atoi: the value of a non-empty all-digit string, None
   * (NGX_ERROR) for an empty string or any other character.
   */
  function Atoi(s: string): (r: Option<nat>)
    ensures r.Some? <==> s != [] && AllDigits(s)
  {
    if s != [] && AllDigits(s) then Some(DecimalValue(s)) else None
  }

  /** The shortest decimal rendering of n. */
  function Decimal(n: nat): (s: string)
    ensures s != [] && AllDigits(s)
    decreases n
  {
    if n < 10 then [DigitChar(n)] else Decimal(n / 10) + [DigitChar(n % 10)]
  }

  /** Atoi reads back what Decimal writes. */
  lemma {:induction false} AtoiDecimal(n: nat)
    ensures Atoi(Decimal(n)) == Some(n)
    decreases n
  {
    var s := Decimal(n);
    if n >= 10 {
      AtoiDecimal(n / 10);
      assert s[..|s| - 1] == Decimal(n / 10);
      assert DecimalValue(s) == DecimalValue(Decimal(n / 10)) * 10 + n % 10;
    } else {
      assert s[..|s| - 1] == [];
      assert DecimalValue(s) == DecimalValue([]) * 10 + n;
    }
  }

  /** Leading zeros do not change the value Atoi reads. */
  lemma {:induction false} AtoiLeadingZero(s: string)
    requires s != [] && AllDigits(s)
    ensures Atoi("0" + s) == Atoi(s)
    decreases |s|
  {
    var z := "0" + s;
    assert AllDigits(z);
    var last := DigitValue(s[|s| - 1]);
    assert z[|z| - 1] == s[|s| - 1];
    if |s| > 1 {
      var p := s[..|s| - 1];
      AtoiLeadingZero(p);
      assert z[..|z| - 1] == "0" + p;
      assert DecimalValue(z) == DecimalValue("0" + p) * 10 + last;
    } else {
      assert z[..|z| - 1] == "0";
      assert "0"[..0] == [] && s[..0] == [];
      assert DecimalValue("0") == 0;
      assert DecimalValue(z) == DecimalValue("0") * 10 + last;
      assert DecimalValue(s) == DecimalValue(s[..0]) * 10 + last;
    }
  }

  // ---------------------------------------------------------------------
  // The guard chain
  // ---------------------------------------------------------------------

  /** The outcome of the guards before the limiter runs. */
  datatype Gate = Decline | Fail | Proceed(quality: nat)

  /** A convert_if value that switches conversion off: empty, or exactly "0". */
  predicate IsOff(v: string) {
    v == "" || v == "0"
  }

  /**
   * The handler's guards, in order: the eligibility checks decline;
   * convert_if fails on an evaluation error and declines on an "off"
   * value; quality_if fails on an evaluation error, a non-number or a
   * value above 100. The surviving request carries the per-request
   * quality (quality_if's value, else the configured one).
   */
  function PreLimit(conf: LocConf, req: Request, eval: string -> Option<string>): (g: Gate)
    requires IsMerged(conf)
    ensures !Eligible(conf, req) ==> g == Decline
    ensures g.Proceed? && conf.qualityIf.Some? ==> g.quality <= 100
    ensures g.Proceed? && conf.qualityIf.None? ==> g.quality == conf.quality.value
    ensures g.Fail? ==> conf.convertIf.Some? || conf.qualityIf.Some?
  {
    if !Eligible(conf, req) then Decline
    else if conf.convertIf.Some? && eval(conf.convertIf.value).None? then Fail
    else if conf.convertIf.Some? && IsOff(eval(conf.convertIf.value).value) then Decline
    else if conf.qualityIf.Some? then
      var v := eval(conf.qualityIf.value);
      if v.None? then Fail
      else
        var q := Atoi(v.value);
        if q.None? || q.value > 100 then Fail else Proceed(q.value)
    else Proceed(conf.quality.value)
  }

  /** Any failed eligibility check declines, whatever convert_if and quality_if say. */
  lemma DeclinesUnlessEligible(conf: LocConf, req: Request, eval: string -> Option<string>)
    requires IsMerged(conf)
    ensures PreLimit(conf, req, eval) == Decline <==>
      !Eligible(conf, req) ||
      (conf.convertIf.Some? && eval(conf.convertIf.value).Some? && IsOff(eval(conf.convertIf.value).value))
    ensures !Eligible(conf, req) ==> PreLimit(conf, req, eval) == Decline
  {
  }

  /**
   * With neither template configured (no directive sets them), an
   * eligible request proceeds with the location's quality.
   */
  lemma EligibleWithoutTemplatesProceeds(conf: LocConf, req: Request, eval: string -> Option<string>)
    requires IsMerged(conf) && conf.convertIf.None? && conf.qualityIf.None?
    ensures PreLimit(conf, req, eval) == if Eligible(conf, req) then Proceed(conf.quality.value) else Decline
  {
  }

  /**
   * convert_if on an eligible request: an evaluation error fails, an
   * "off" value declines, and any other value lets the chain continue as
   * if no convert_if were configured.
   */
  lemma ConvertIfOutcomes(conf: LocConf, req: Request, eval: string -> Option<string>)
    requires IsMerged(conf) && Eligible(conf, req) && conf.convertIf.Some?
    ensures eval(conf.convertIf.value).None? ==> PreLimit(conf, req, eval) == Fail
    ensures eval(conf.convertIf.value).Some? && IsOff(eval(conf.convertIf.value).value) ==>
      PreLimit(conf, req, eval) == Decline
    ensures eval(conf.convertIf.value).Some? && !IsOff(eval(conf.convertIf.value).value) ==>
      PreLimit(conf, req, eval) == PreLimit(conf.(convertIf := None), req, eval)
  {
    assert IsMerged(conf.(convertIf := None));
  }

  /**
   * quality_if on an eligible request that convert_if lets through: the
   * request proceeds exactly when the value is a decimal number of at
   * most 100, and then carries that number.
   */
  lemma QualityIfOutcomes(conf: LocConf, req: Request, eval: string -> Option<string>)
    requires IsMerged(conf) && Eligible(conf, req) && conf.convertIf.None? && conf.qualityIf.Some?
    ensures PreLimit(conf, req, eval).Proceed? <==>
      var v := eval(conf.qualityIf.value);
      v.Some? && v.value != [] && AllDigits(v.value) && DecimalValue(v.value) <= 100
    ensures PreLimit(conf, req, eval).Proceed? ==>
      PreLimit(conf, req, eval).quality == DecimalValue(eval(conf.qualityIf.value).value)
    ensures !PreLimit(conf, req, eval).Proceed? ==> PreLimit(conf, req, eval) == Fail
  {
  }

  /** A quality_if that renders n is accepted as quality n when n <= 100 and fails otherwise. */
  lemma QualityIfRenderedNumber(conf: LocConf, req: Request, eval: string -> Option<string>, n: nat)
    requires IsMerged(conf) && Eligible(conf, req) && conf.convertIf.None? && conf.qualityIf.Some?
    requires eval(conf.qualityIf.value) == Some(Decimal(n))
    ensures n <= 100 ==> PreLimit(conf, req, eval) == Proceed(n)
    ensures n > 100 ==> PreLimit(conf, req, eval) == Fail
  {
    AtoiDecimal(n);
  }

  /** The extension test is a substring test: a URI whose path merely contains ".png" qualifies. */
  lemma ExtensionIsSubstringNotSuffix()
    ensures IsImageUri("/a.png.html")
  {
    assert '\0' !in "/a.png.html";
    assert ".png" <= "/a.png.html"[2..];
    assert Contains("/a.png.html"[2..], ".png");
  }

  /**
   * The extension test is not bounded by uri.len: for a URI without a NUL
   * of its own, an extension anywhere in the memory after it qualifies the
   * request; only when a NUL directly follows the URI are its own bytes
   * all that count.
   */
  lemma UriTestReadsPastLength(uri: string, tail: string)
    requires '\0' !in uri
    ensures IsImageUri(tail) ==> IsImageUri(uri + tail)
    ensures tail != [] && tail[0] == '\0' ==>
      (IsImageUri(uri + tail) <==>
         Contains(uri, ".jpg") || Contains(uri, ".jpeg") || Contains(uri, ".png") ||
         Contains(uri, ".avif") || Contains(uri, ".jxl"))
  {
    StrStrPastLength(uri, tail, ".jpg");
    StrStrPastLength(uri, tail, ".jpeg");
    StrStrPastLength(uri, tail, ".png");
    StrStrPastLength(uri, tail, ".avif");
    StrStrPastLength(uri, tail, ".jxl");
  }

  /**
   * "GET /page?x=.png": r->uri is the path alone, but the test reads on
   * into the query string of the request line, so a request for any path
   * (without a NUL of its own) is treated as an image request.
   */
  lemma QueryStringPassesExtensionTest(path: string, restOfLine: string)
    requires '\0' !in path && '\0' !in restOfLine
    ensures IsImageUri(path + ("?x=.png" + restOfLine))
  {
    var tail := "?x=.png" + restOfLine;
    assert '\0' !in tail;
    assert OccursAt(tail, ".png", 3);
    ContainsAt(tail, ".png");
    StrStrPastLength(path, tail, ".png");
  }

  /**
   * Every URI the handler lets through has a decoder, except one whose
   * only extension is ".jxl" on a build without JPEG XL support; and
   * every path with a decoder passes the extension test.
   */
  lemma GateAndDispatchAgree(uriMem: string, jxlEnabled: bool)
    ensures Dispatch(uriMem, jxlEnabled) != NoDecoder ==> IsImageUri(uriMem)
    ensures IsImageUri(uriMem) && Dispatch(uriMem, jxlEnabled) == NoDecoder ==>
      !jxlEnabled && StrStr(uriMem, ".jxl")
    ensures IsImageUri(uriMem) <==> Dispatch(uriMem, true) != NoDecoder
  {
    DispatchPriority(uriMem, jxlEnabled);
    DispatchPriority(uriMem, true);
  }

  // ---------------------------------------------------------------------
  // Destination path and response
  // ---------------------------------------------------------------------

  /** The cache file for a digest: "<cache_dir>/<digest>.webp". */
  function DstPath(dir: string, key: Digest): (p: string)
    ensures |p| == |dir| + KEY_LEN + 6
  {
    dir + "/" + key + ".webp"
  }

  /** Distinct digests name distinct files within one cache directory. */
  lemma DstPathInjective(dir: string, k1: Digest, k2: Digest)
    requires DstPath(dir, k1) == DstPath(dir, k2)
    ensures k1 == k2
  {
    assert DstPath(dir, k1)[|dir| + 1..|dir| + 1 + KEY_LEN] == k1;
    assert DstPath(dir, k2)[|dir| + 1..|dir| + 1 + KEY_LEN] == k2;
  }

  /** What the handler returns: a status code, or the named file is sent. */
  datatype Outcome = Status(code: int) | SendFile(path: string)

  /** The result of serve_file for a path, given what opening it reports. */
  function ServeOutcome(path: string, o: OpenResult): (r: Outcome)
    ensures r.SendFile? <==> o == Opened(true)
    ensures r.SendFile? ==> r.path == path
  {
    match ServeFileStatus(o)
    case Some(code) => Status(code)
    case None => SendFile(path)
  }

  /**
   * ngx_http_webp_handler. `nowMs` is ngx_current_msec (the limiter's
   * clock), `nowSec` is ngx_time() (the index's clock), `openFile` is what
   * opening a path reports, `env` the outcomes of convert_image's steps.
   * The limiter is the fixed-window one the handler links against.
   */
  method Handle(conf: LocConf, req: Request, eval: string -> Option<string>,
                sha1: string -> Digest, crc32: string -> nat,
                limiter: FixedWindowLimiter, cache: ShmCtx, r: RequestState,
                nowMs: nat, nowSec: int, env: ConvertEnv, openFile: string -> OpenResult)
    returns (outcome: Outcome, job: ConvertCtx?)
    requires IsMerged(conf) && cache.Valid()
    modifies limiter, cache, r
    ensures cache.Valid()
    // Declined and failed requests touch nothing, not even the limiter.
    ensures PreLimit(conf, req, eval) == Decline ==>
      outcome == Status(NGX_DECLINED) && job == null && unchanged(limiter, cache, r)
    ensures PreLimit(conf, req, eval) == Fail ==>
      outcome == Status(NGX_ERROR) && job == null && unchanged(limiter, cache, r)
    // Every request that passes the guards is counted by the limiter.
    ensures PreLimit(conf, req, eval).Proceed? ==>
      limiter.State() == FixedLimitStep(old(limiter.State()), nowMs).0
    // A throttled request gets 429 before any hashing or index access.
    ensures PreLimit(conf, req, eval).Proceed? && FixedLimitStep(old(limiter.State()), nowMs).1 != NGX_OK ==>
      outcome == Status(HTTP_TOO_MANY_REQUESTS) && job == null && unchanged(cache, r)
    ensures PreLimit(conf, req, eval).Proceed? && FixedLimitStep(old(limiter.State()), nowMs).1 == NGX_OK ==>
      var key := sha1(req.unparsedUri);
      var dst := DstPath(conf.cacheDir.value, key);
      var (hit, ix) := LookupIndex(old(cache.Snapshot()), crc32(key), key, nowSec);
      var rc := ConvertImageStatus(conf.maxImageSize.value, env);
      && cache.Snapshot() == ix
      // A hit serves the entry's own path and posts nothing.
      && (hit.Some? ==> outcome == ServeOutcome(hit.value, openFile(hit.value)) && job == null && unchanged(r))
      // A miss converts; only NGX_ERROR becomes 500, every other code serves the destination.
      && (hit.None? && rc == NGX_ERROR ==> outcome == Status(HTTP_INTERNAL_SERVER_ERROR))
      && (hit.None? && rc != NGX_ERROR ==> outcome == ServeOutcome(dst, openFile(dst)))
      && (hit.None? ==> (job != null <==> rc == NGX_AGAIN))
      && (job != null ==>
            && job.srcPath == req.uri && job.srcTail == req.uriTail
            && job.dstPath == dst && job.quality == conf.quality.value)
  {
    var g := PreLimit(conf, req, eval);
    if g == Decline {
      return Status(NGX_DECLINED), null;
    }
    if g == Fail {
      return Status(NGX_ERROR), null;
    }
    var admitted := limiter.LimitReq(nowMs);
    if admitted != NGX_OK {
      return Status(HTTP_TOO_MANY_REQUESTS), null;
    }
    var key := sha1(req.unparsedUri);
    var dst := DstPath(conf.cacheDir.value, key);
    var hit := cache.Lookup(crc32, key, nowSec);
    if hit.Some? {
      return ServeOutcome(hit.value, openFile(hit.value)), null;
    }
    var rc;
    rc, job := ConvertImage(r, conf, req.uri, req.uriTail, dst, env);
    if rc == NGX_ERROR {
      return Status(HTTP_INTERNAL_SERVER_ERROR), job;
    }
    return ServeOutcome(dst, openFile(dst)), job;
  }
}
