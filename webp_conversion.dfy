/**
 * ngx_http_webp_conversion.c: the job run on the thread pool (decoder
 * dispatch by path substring, then one WebP encode), the request-side
 * step that reads the source and posts the job, and the status mapping
 * of serve_file.
 *
 * The codecs are foreign libraries: each is a parameter that returns the
 * buffer it produced or nothing. The file system, the pool allocator and
 * the thread pool appear only through the outcomes they report.
 */
module WebpConversion {
  import opened Nginx
  import opened WebpModule

  // ---------------------------------------------------------------------
  // The conversion job (ngx_http_webp_convert_thread_handler)
  // ---------------------------------------------------------------------

  datatype Decoder = PngDecoder | JpegDecoder | AvifDecoder | JxlDecoder | NoDecoder

  /**
   * Decoder dispatch on substrings of the source path, in fixed priority:
   * ".png", then ".jpg" or ".jpeg", then ".avif", then ".jxl" (only when
   * the module is built with JPEG XL support). `srcMem` is the memory at
   * src_path.data: ngx_strstr reads it up to the first NUL, past the end
   * of the path when no NUL ends it.
   */
  function Dispatch(srcMem: string, jxlEnabled: bool): (d: Decoder)
    ensures d == NoDecoder <==>
      !StrStr(srcMem, ".png") && !StrStr(srcMem, ".jpg") && !StrStr(srcMem, ".jpeg") &&
      !StrStr(srcMem, ".avif") && !(jxlEnabled && StrStr(srcMem, ".jxl"))
    ensures StrStr(srcMem, ".png") ==> d == PngDecoder
  {
    if StrStr(srcMem, ".png") then PngDecoder
    else if StrStr(srcMem, ".jpg") || StrStr(srcMem, ".jpeg") then JpegDecoder
    else if StrStr(srcMem, ".avif") then AvifDecoder
    else if jxlEnabled && StrStr(srcMem, ".jxl") then JxlDecoder
    else NoDecoder
  }

  /**
   * The job receives the request's URI as its source path, so the same
   * overread decides the decoder: ".png" after the path, as in
   * "/photo.jpg?x=.png", wins over the path's own ".jpg".
   */
  /**
   * The order of the tests: ".png" first, then ".jpg" or ".jpeg", then
   * ".avif", then ".jxl" when JPEG XL support is built in; each decoder is
   * chosen exactly when its extension is present and no earlier one is.
   */
  lemma DispatchPriority(srcMem: string, jxlEnabled: bool)
    ensures var d := Dispatch(srcMem, jxlEnabled);
      var png := StrStr(srcMem, ".png");
      var jpeg := StrStr(srcMem, ".jpg") || StrStr(srcMem, ".jpeg");
      var avif := StrStr(srcMem, ".avif");
      var jxl := jxlEnabled && StrStr(srcMem, ".jxl");
      && (d == PngDecoder <==> png)
      && (d == JpegDecoder <==> !png && jpeg)
      && (d == AvifDecoder <==> !png && !jpeg && avif)
      && (d == JxlDecoder <==> !png && !jpeg && !avif && jxl)
      && (d == NoDecoder <==> !png && !jpeg && !avif && !jxl)
  {
  }

  lemma TailCanPickDecoder(path: string, tail: string, jxlEnabled: bool)
    requires '\0' !in path && StrStr(tail, ".png")
    ensures Dispatch(path + tail, jxlEnabled) == PngDecoder
  {
    StrStrPastLength(path, tail, ".png");
    DispatchPriority(path + tail, jxlEnabled);
  }

  /** "GET /photo.jpg?x=.png" is decoded as PNG. */
  lemma QueryStringPicksPngDecoder(jxlEnabled: bool)
    ensures Dispatch("/photo.jpg" + "?x=.png", jxlEnabled) == PngDecoder
  {
    var tail := "?x=.png";
    assert '\0' !in tail && '\0' !in "/photo.jpg";
    assert ".png" <= tail[3..];
    assert Contains(tail[3..], ".png");
    TailCanPickDecoder("/photo.jpg", tail, jxlEnabled);
  }

  type Dims = (int, int)

  /** A decoded raster from WebPDecodePNG / WebPDecodeJPEG: pixels and dimensions. */
  datatype Raster = Raster(pixels: Bytes, width: int, height: int)

  /**
   * What the AVIF branch ends with: the I/O setup or the parse fails, or
   * the parse succeeds, the pixel buffer is allocated (or the allocation
   * fails) and the YUV-to-RGB conversion either fills in the dimensions
   * or leaves them unset.
   */
  datatype AvifDecode = AvifIoFailed | AvifParseFailed | AvifParsed(buffer: Option<Bytes>, converted: Option<Dims>)

  /** The JPEG XL branch: no basic info, or a buffer (possibly not allocated) and the info's size. */
  datatype JxlDecode = JxlNoInfo | JxlInfo(buffer: Option<Bytes>, width: int, height: int)

  /** The foreign codec libraries; `encode` stands for WebPEncodeRGBA, None for a NULL output. */
  datatype Codecs = Codecs(
    png: Bytes -> Option<Raster>,
    jpeg: Bytes -> Option<Raster>,
    avif: Bytes -> AvifDecode,
    jxl: Bytes -> JxlDecode,
    encode: (Bytes, Option<Dims>, nat) -> Option<Bytes>)

  /** raw_data and (width, height) after the decode branch; unset dimensions are None. */
  datatype Decoded = Decoded(pixels: Option<Bytes>, dims: Option<Dims>)

  function DecodeImage(d: Decoder, codecs: Codecs, data: Bytes): (r: Decoded)
    ensures d == NoDecoder ==> r == Decoded(None, None)
    ensures d != AvifDecoder && r.pixels.Some? ==> r.dims.Some?
  {
    match d
    case PngDecoder =>
      (match codecs.png(data)
       case None => Decoded(None, None)
       case Some(r) => Decoded(Some(r.pixels), Some((r.width, r.height))))
    case JpegDecoder =>
      (match codecs.jpeg(data)
       case None => Decoded(None, None)
       case Some(r) => Decoded(Some(r.pixels), Some((r.width, r.height))))
    case AvifDecoder =>
      (match codecs.avif(data)
       case AvifParsed(buffer, converted) => Decoded(buffer, converted)
       case _ => Decoded(None, None))
    case JxlDecoder =>
      (match codecs.jxl(data)
       case JxlInfo(buffer, w, h) => Decoded(buffer, Some((w, h)))
       case JxlNoInfo => Decoded(None, None))
    case NoDecoder => Decoded(None, None)
  }

  datatype JobResult = JobFailed | JobEncoded(webp: Bytes)

  /**
   * The outcome of one job: no pixel buffer fails without encoding; a
   * buffer is encoded at the job's quality and a NULL encoder output
   * fails.
   */
  function ConvertJob(srcMem: string, imageData: Bytes, quality: nat, codecs: Codecs, jxlEnabled: bool): (r: JobResult)
    ensures r.JobEncoded? ==> Dispatch(srcMem, jxlEnabled) != NoDecoder
    ensures r.JobEncoded? ==> var dec := DecodeImage(Dispatch(srcMem, jxlEnabled), codecs, imageData);
      dec.pixels.Some? && codecs.encode(dec.pixels.value, dec.dims, quality) == Some(r.webp)
  {
    var dec := DecodeImage(Dispatch(srcMem, jxlEnabled), codecs, imageData);
    if dec.pixels.None? then JobFailed
    else match codecs.encode(dec.pixels.value, dec.dims, quality)
      case None => JobFailed
      case Some(w) => JobEncoded(w)
  }

  /**
   * Without a pixel buffer the job fails and the encoder is never
   * consulted: replacing it changes nothing.
   */
  lemma NoPixelsFailsWithoutEncoding(srcMem: string, data: Bytes, quality: nat, codecs: Codecs,
                                      jxlEnabled: bool, otherEncode: (Bytes, Option<Dims>, nat) -> Option<Bytes>)
    requires DecodeImage(Dispatch(srcMem, jxlEnabled), codecs, data).pixels.None?
    ensures ConvertJob(srcMem, data, quality, codecs, jxlEnabled) == JobFailed
    ensures ConvertJob(srcMem, data, quality, codecs.(encode := otherEncode), jxlEnabled) == JobFailed
  {
  }

  /** A path none of whose substrings selects a decoder always fails. */
  lemma UnmatchedPathFails(srcMem: string, data: Bytes, quality: nat, codecs: Codecs, jxlEnabled: bool)
    requires !StrStr(srcMem, ".png") && !StrStr(srcMem, ".jpg") && !StrStr(srcMem, ".jpeg")
    requires !StrStr(srcMem, ".avif") && !(jxlEnabled && StrStr(srcMem, ".jxl"))
    ensures ConvertJob(srcMem, data, quality, codecs, jxlEnabled) == JobFailed
  {
  }

  /**
   * In the AVIF branch the buffer is kept once parsing succeeded, even
   * when the YUV-to-RGB conversion failed and left the dimensions unset:
   * the encoder still runs, and its output decides the result.
   */
  lemma AvifConversionFailureStillEncodes(srcMem: string, data: Bytes, quality: nat, codecs: Codecs,
                                          jxlEnabled: bool, buffer: Bytes)
    requires Dispatch(srcMem, jxlEnabled) == AvifDecoder
    requires codecs.avif(data) == AvifParsed(Some(buffer), None)
    ensures ConvertJob(srcMem, data, quality, codecs, jxlEnabled) ==
            match codecs.encode(buffer, None, quality)
            case None => JobFailed
            case Some(w) => JobEncoded(w)
  {
  }

  /**
   * A job succeeds exactly when a decoder produced pixels and the encoder
   * returned a buffer; the encoded bytes are the encoder's output.
   */
  lemma ConvertJobSucceedsIff(srcMem: string, data: Bytes, quality: nat, codecs: Codecs, jxlEnabled: bool)
    ensures var dec := DecodeImage(Dispatch(srcMem, jxlEnabled), codecs, data);
      ConvertJob(srcMem, data, quality, codecs, jxlEnabled).JobEncoded? <==>
        Dispatch(srcMem, jxlEnabled) != NoDecoder && dec.pixels.Some? &&
        codecs.encode(dec.pixels.value, dec.dims, quality).Some?
  {
  }

  /**
   * ngx_http_webp_convert_ctx_t: the job context shared between the
   * request and the worker thread.
   */
  class ConvertCtx {
    var srcPath: string
    /** The memory after src_path's bytes, which it shares with the request's URI. */
    var srcTail: string
    var dstPath: string
    var imageData: Bytes
    var imageSize: nat
    var quality: nat
    var webpData: Option<Bytes>
    var webpSize: nat
    var result: int

    /** ngx_pcalloc: every field zero, which makes `result` read as NGX_OK. */
    constructor ()
      ensures srcPath == "" && srcTail == "" && dstPath == "" && imageData == [] && imageSize == 0 && quality == 0
      ensures webpData.None? && webpSize == 0 && result == NGX_OK
    {
      srcPath, srcTail, dstPath, imageData, imageSize, quality := "", "", "", [], 0, 0;
      webpData, webpSize, result := None, 0, NGX_OK;
    }

    /**
     * ngx_http_webp_convert_thread_handler: only `result`, `webpData` and
     * `webpSize` change; on failure the output fields keep their values.
     */
    method ConvertThreadHandler(codecs: Codecs, jxlEnabled: bool)
      modifies this
      ensures srcPath == old(srcPath) && srcTail == old(srcTail) && dstPath == old(dstPath)
      ensures imageData == old(imageData) && imageSize == old(imageSize) && quality == old(quality)
      ensures match ConvertJob(old(srcPath) + old(srcTail), old(imageData), old(quality), codecs, jxlEnabled)
        case JobFailed => result == NGX_ERROR && webpData == old(webpData) && webpSize == old(webpSize)
        case JobEncoded(w) => result == NGX_OK && webpData == Some(w) && webpSize == |w|
    {
      var dec := DecodeImage(Dispatch(srcPath + srcTail, jxlEnabled), codecs, imageData);
      if dec.pixels.None? {
        result := NGX_ERROR;
        return;
      }
      var webp := codecs.encode(dec.pixels.value, dec.dims, quality);
      if webp.None? {
        result := NGX_ERROR;
        return;
      }
      webpData := webp;
      webpSize := |webp.value|;
      result := NGX_OK;
    }
  }

  // ---------------------------------------------------------------------
  // Posting the job (ngx_http_webp_convert_image)
  // ---------------------------------------------------------------------

  /**
   * What the host reports at each step of convert_image, in order: the
   * context allocation, opening the source, stat (its size), the buffer
   * allocation, the read (the bytes read, None for NGX_ERROR), the task
   * allocation, finding the thread pool and posting the task.
   */
  datatype ConvertEnv = ConvertEnv(
    ctxAlloc: bool,
    sourceOpened: bool,
    stat: Option<nat>,
    bufferAlloc: bool,
    read: Option<Bytes>,
    taskAlloc: bool,
    poolFound: bool,
    posted: bool)

  /** The return code of convert_image. */
  function ConvertImageStatus(maxImageSize: nat, env: ConvertEnv): (rc: int)
    ensures rc == NGX_AGAIN || rc == HTTP_REQUEST_ENTITY_TOO_LARGE || rc == NGX_ERROR
    ensures rc == HTTP_REQUEST_ENTITY_TOO_LARGE ==> env.stat.Some? && env.stat.value > maxImageSize
    ensures rc == NGX_AGAIN ==> env.posted && env.read.Some?
  {
    if !env.ctxAlloc || !env.sourceOpened || env.stat.None? then NGX_ERROR
    else if env.stat.value > maxImageSize then HTTP_REQUEST_ENTITY_TOO_LARGE
    else if !env.bufferAlloc || env.read.None? || !env.taskAlloc || !env.poolFound || !env.posted then NGX_ERROR
    else NGX_AGAIN
  }

  /** Every step having succeeded, with a source of at most the size limit. */
  predicate AllStepsSucceed(maxImageSize: nat, env: ConvertEnv) {
    && env.ctxAlloc && env.sourceOpened && env.stat.Some? && env.stat.value <= maxImageSize
    && env.bufferAlloc && env.read.Some? && env.taskAlloc && env.poolFound && env.posted
  }

  /**
   * convert_image returns NGX_AGAIN exactly when every step succeeded,
   * 413 exactly when the stat size exceeds the limit (a size equal to the
   * limit is accepted), and NGX_ERROR for every other failure.
   */
  lemma ConvertImageOutcomes(maxImageSize: nat, env: ConvertEnv)
    ensures var rc := ConvertImageStatus(maxImageSize, env);
      && (rc == NGX_AGAIN || rc == HTTP_REQUEST_ENTITY_TOO_LARGE || rc == NGX_ERROR)
      && (rc == NGX_AGAIN <==> AllStepsSucceed(maxImageSize, env))
      && (rc == HTTP_REQUEST_ENTITY_TOO_LARGE <==>
            env.ctxAlloc && env.sourceOpened && env.stat.Some? && env.stat.value > maxImageSize)
  {
  }

  /** The per-request state that posting a job changes: r->main->blocked and r->aio. */
  class RequestState {
    var blocked: nat
    var aio: bool

    constructor ()
      ensures blocked == 0 && !aio
    {
      blocked, aio := 0, false;
    }
  }

  /**
   * ngx_http_webp_convert_image: on NGX_AGAIN the returned job carries the
   * source bytes, the paths and the location's configured quality (not
   * any per-request quality), the request is blocked once more and marked
   * as waiting for asynchronous work; on any other code nothing is posted
   * and the request is unchanged.
   */
  method ConvertImage(r: RequestState, conf: LocConf, srcPath: string, srcTail: string, dstPath: string,
                      env: ConvertEnv)
    returns (rc: int, job: ConvertCtx?)
    requires IsMerged(conf)
    modifies r
    ensures rc == ConvertImageStatus(conf.maxImageSize.value, env)
    ensures rc == NGX_AGAIN ==>
      && job != null && fresh(job)
      && job.srcPath == srcPath && job.srcTail == srcTail && job.dstPath == dstPath
      && job.imageData == env.read.value && job.imageSize == env.stat.value
      && job.quality == conf.quality.value
      && job.webpData.None? && job.result == NGX_OK
      && r.blocked == old(r.blocked) + 1 && r.aio
    ensures rc != NGX_AGAIN ==> job == null && r.blocked == old(r.blocked) && r.aio == old(r.aio)
  {
    job := null;
    if !env.ctxAlloc {
      return NGX_ERROR, null;
    }
    if !env.sourceOpened {
      return NGX_ERROR, null;
    }
    if env.stat.None? {
      return NGX_ERROR, null;
    }
    var size := env.stat.value;
    if size > conf.maxImageSize.value {
      return HTTP_REQUEST_ENTITY_TOO_LARGE, null;
    }
    if !env.bufferAlloc || env.read.None? {
      return NGX_ERROR, null;
    }
    var ctx := new ConvertCtx();
    ctx.imageData := env.read.value;
    ctx.srcPath := srcPath;
    ctx.srcTail := srcTail;
    ctx.dstPath := dstPath;
    ctx.imageSize := size;
    ctx.quality := conf.quality.value;
    if !env.taskAlloc || !env.poolFound || !env.posted {
      return NGX_ERROR, null;
    }
    r.blocked := r.blocked + 1;
    r.aio := true;
    return NGX_AGAIN, ctx;
  }

  // ---------------------------------------------------------------------
  // serve_file status mapping
  // ---------------------------------------------------------------------

  /** What ngx_open_cached_file reports: an open file (regular or not) or the errno of the failure. */
  datatype OpenResult = Opened(isFile: bool) | OpenFailed(err: int)

  /**
   * The early returns of ngx_http_webp_serve_file (conversion.c): Some
   * status when it stops before sending, None when it goes on to send the
   * file.
   */
  function ServeFileStatus(o: OpenResult): (r: Option<int>)
    ensures r.None? <==> o == Opened(true)
    ensures r.Some? ==> r.value in {HTTP_NOT_FOUND, HTTP_FORBIDDEN, HTTP_INTERNAL_SERVER_ERROR, NGX_DECLINED}
  {
    match o
    case OpenFailed(err) =>
      if err == ENOENT || err == ENOTDIR || err == ENAMETOOLONG then Some(HTTP_NOT_FOUND)
      else if err == EACCES then Some(HTTP_FORBIDDEN)
      else Some(HTTP_INTERNAL_SERVER_ERROR)
    case Opened(isFile) => if isFile then None else Some(NGX_DECLINED)
  }

  /**
   * A failed open answers 404 exactly for ENOENT, ENOTDIR and
   * ENAMETOOLONG, 403 exactly for EACCES and 500 for anything else
   * (including an errno of 0); an open non-regular file declines; only an
   * open regular file is sent.
   */
  lemma ServeFileStatusMapping(o: OpenResult)
    ensures o.OpenFailed? ==>
      && (ServeFileStatus(o) == Some(HTTP_NOT_FOUND) <==> o.err in {ENOENT, ENOTDIR, ENAMETOOLONG})
      && (ServeFileStatus(o) == Some(HTTP_FORBIDDEN) <==> o.err == EACCES)
      && (ServeFileStatus(o) == Some(HTTP_INTERNAL_SERVER_ERROR) <==> o.err !in {ENOENT, ENOTDIR, ENAMETOOLONG, EACCES})
    ensures ServeFileStatus(o).None? <==> o == Opened(true)
    ensures ServeFileStatus(o) == Some(NGX_DECLINED) <==> o == Opened(false)
  {
  }

  /**
   * The copy of serve_file in ngx_http_webp_header.c first pushes an
   * extra response header and returns NGX_ERROR if that fails; otherwise
   * it maps the open result the same way.
   */
  function ServeFileWithHeaderStatus(headerPushed: bool, o: OpenResult): (r: Option<int>)
    ensures headerPushed ==> r == ServeFileStatus(o)
    ensures !headerPushed ==> r == Some(NGX_ERROR)
  {
    if !headerPushed then Some(NGX_ERROR)
    else match o
      case OpenFailed(err) =>
        if err == ENOENT || err == ENOTDIR || err == ENAMETOOLONG then Some(HTTP_NOT_FOUND)
        else if err == EACCES then Some(HTTP_FORBIDDEN)
        else Some(HTTP_INTERNAL_SERVER_ERROR)
      case Opened(isFile) => if isFile then None else Some(NGX_DECLINED)
  }
}
