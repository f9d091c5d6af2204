/**
 * ngx_http_webp_init.c: shared-zone initialisation, the worker-start
 * hook, the periodic cache-directory sweeper and the rate-plus-burst
 * admission limiter.
 *
 * The directory is a snapshot: a sequence of entries as readdir returns
 * them, each with the outcome of allocating its path and of stat.
 * Deleting a file is recorded as its path in the sweep's result.
 */
module WebpInit {
  import opened Nginx
  import opened WebpModule
  import opened WebpCache

  // ---------------------------------------------------------------------
  // ngx_http_webp_init_shm_zone
  // ---------------------------------------------------------------------

  /** The part of ngx_shm_zone_t the module touches: its data pointer. */
  class ShmZone {
    var data: ShmCtx?

    constructor (data: ShmCtx?)
      ensures this.data == data
    {
      this.data := data;
    }
  }

  /**
   * ngx_http_webp_init_shm_zone: a zone handed existing data adopts it;
   * otherwise a fresh context with an empty tree and queue is allocated
   * from the slab pool and installed, and a failed allocation leaves the
   * zone as it was and returns NGX_ERROR.
   */
  method InitShmZone(zone: ShmZone, data: ShmCtx?, allocOk: bool) returns (rc: int)
    modifies zone
    ensures data != null ==> rc == NGX_OK && zone.data == data
    ensures data == null && !allocOk ==> rc == NGX_ERROR && zone.data == old(zone.data)
    ensures data == null && allocOk ==>
      rc == NGX_OK && zone.data != null && fresh(zone.data) &&
      zone.data.Valid() && zone.data.Snapshot() == Index([], [])
  {
    if data != null {
      zone.data := data;
      return NGX_OK;
    }
    if !allocOk {
      return NGX_ERROR;
    }
    var ctx := new ShmCtx();
    zone.data := ctx;
    return NGX_OK;
  }

  // ---------------------------------------------------------------------
  // Timer delay
  // ---------------------------------------------------------------------

  /** What ngx_add_timer is given: a delay, or a division by a zero files_per_cleanup. */
  datatype Schedule = Armed(delayMs: nat) | DivisionByZero

  /**
   * cache_time * 1000 / files_per_cleanup in unsigned 64-bit arithmetic:
   * the product wraps, the quotient truncates, and a zero divisor is
   * undefined behaviour rather than a value.
   */
  function SweepDelay(cacheTime: nat, filesPerCleanup: nat): (r: Schedule)
    ensures r.DivisionByZero? <==> filesPerCleanup == 0
    ensures r.Armed? ==> r.delayMs < U64_MODULUS
  {
    if filesPerCleanup == 0 then DivisionByZero
    else
      var product := (cacheTime * 1000) % U64_MODULUS;
      QuotientAtMost(product, filesPerCleanup);
      Armed(product / filesPerCleanup)
  }

  /** Truncating division by a positive divisor never increases a natural number. */
  lemma QuotientAtMost(a: nat, d: nat)
    requires d > 0
    ensures a / d <= a
  {
    var q := a / d;
    assert a == d * q + a % d;
    AtLeastOnce(d, q);
  }

  /** A positive multiple of a natural number is at least that number. */
  lemma {:induction false} AtLeastOnce(d: nat, q: nat)
    requires d > 0
    ensures d * q >= q
    decreases d
  {
    if d > 1 {
      AtLeastOnce(d - 1, q);
      assert d * q == (d - 1) * q + q;
    }
  }

  /** The defaults (one hour, 100 files) sweep every 36 seconds; zero files per sweep divides by zero. */
  lemma SweepDelayCases(cacheTime: nat, filesPerCleanup: nat)
    ensures SweepDelay(DEFAULT_CACHE_TIME, DEFAULT_FILES_PER_CLEANUP) == Armed(36000)
    ensures SweepDelay(cacheTime, filesPerCleanup) == DivisionByZero <==> filesPerCleanup == 0
    ensures filesPerCleanup > 0 && cacheTime * 1000 < U64_MODULUS ==>
      SweepDelay(cacheTime, filesPerCleanup) == Armed(cacheTime * 1000 / filesPerCleanup)
  {
    assert (DEFAULT_CACHE_TIME * 1000) % U64_MODULUS == 3600000;
    if filesPerCleanup > 0 && cacheTime * 1000 < U64_MODULUS {
      assert (cacheTime * 1000) % U64_MODULUS == cacheTime * 1000;
    }
  }

  // ---------------------------------------------------------------------
  // ngx_http_webp_init_process (this file's definition)
  // ---------------------------------------------------------------------

  /**
   * ngx_http_webp_init_process: installs a fresh shared context, makes the
   * cache directory (an existing one is fine), restricts its permissions,
   * allocates the timer event and arms it. `mkdirErr` is None when
   * creating the directory succeeded, else its errno.
   */
  method InitProcess(zone: ShmZone, conf: LocConf, allocOk: bool, mkdirErr: Option<int>,
                     chmodOk: bool, eventAlloc: bool) returns (rc: int, timer: Option<Schedule>)
    requires IsMerged(conf)
    modifies zone
    ensures rc == NGX_OK <==>
      allocOk && (mkdirErr.None? || mkdirErr.value == EEXIST) && chmodOk && eventAlloc
    ensures rc != NGX_OK ==> rc == NGX_ERROR && timer.None?
    ensures rc == NGX_OK ==> timer == Some(SweepDelay(conf.cacheTime.value, conf.filesPerCleanup.value))
    ensures !allocOk ==> zone.data == old(zone.data)
    ensures allocOk ==> zone.data != null && fresh(zone.data) && zone.data.Snapshot() == Index([], [])
  {
    timer := None;
    var shm := InitShmZone(zone, null, allocOk);
    if shm != NGX_OK {
      return NGX_ERROR, None;
    }
    if mkdirErr.Some? && mkdirErr.value != EEXIST {
      return NGX_ERROR, None;
    }
    if !chmodOk {
      return NGX_ERROR, None;
    }
    if !eventAlloc {
      return NGX_ERROR, None;
    }
    return NGX_OK, Some(SweepDelay(conf.cacheTime.value, conf.filesPerCleanup.value));
  }

  // ---------------------------------------------------------------------
  // The sweeper (ngx_http_webp_cleanup_cache)
  // ---------------------------------------------------------------------

  /** Files examined per inner batch before yielding to posted events. */
  const BATCH_SIZE: nat := 100

  datatype FileInfo = FileInfo(size: nat, mtime: int)

  /**
   * One readdir result: the name, whether allocating its full path
   * succeeded, and the stat result (None when stat failed).
   */
  datatype DirEntry = DirEntry(name: string, pathAlloc: bool, info: Option<FileInfo>)

  /** What one sweep runs with: the directory, ngx_time() and the location's limits. */
  datatype SweepParams = SweepParams(dir: string, now: int, cacheTime: nat, maxCacheSize: nat, filesPerCleanup: nat)

  /**
   * The sweep's running state: entries read so far (the directory
   * handle's position), files_processed, total_size, the paths deleted
   * and the sizes of the files kept, in order.
   */
  datatype Sweep = Sweep(pos: nat, processed: nat, total: nat, deleted: seq<string>, kept: seq<nat>)

  const EMPTY_SWEEP: Sweep := Sweep(0, 0, 0, [], [])

  /** An entry that is examined and counted: not a dot-name, path allocated, stat succeeded. */
  predicate Countable(e: DirEntry) {
    !(|e.name| > 0 && e.name[0] == '.') && e.pathAlloc && e.info.Some?
  }

  /**
   * A file is old when now - mtime exceeds cache_time, where the signed
   * difference is compared as an unsigned 64-bit number.
   */
  predicate Expired(now: int, mtime: int, cacheTime: nat)
    ensures 0 <= now - mtime < U64_MODULUS ==> (Expired(now, mtime, cacheTime) <==> now - mtime > cacheTime)
  {
    SubU64(now, mtime) > cacheTime
  }

  /**
   * One iteration of the inner loop on the next directory entry: skipped
   * entries only advance the handle; a counted file is deleted when it is
   * old or when adding it would exceed the size budget, and kept (its size
   * added to the total) otherwise.
   */
  function Examine(entries: seq<DirEntry>, sw: Sweep, p: SweepParams): (r: Sweep)
    requires sw.pos < |entries|
    ensures r.pos == sw.pos + 1
  {
    var e := entries[sw.pos];
    if !Countable(e) then sw.(pos := sw.pos + 1)
    else
      var size := e.info.value.size;
      if Expired(p.now, e.info.value.mtime, p.cacheTime) || sw.total + size > p.maxCacheSize then
        sw.(pos := sw.pos + 1, processed := sw.processed + 1, deleted := sw.deleted + [p.dir + "/" + e.name])
      else
        sw.(pos := sw.pos + 1, processed := sw.processed + 1, total := sw.total + size, kept := sw.kept + [size])
  }

  /**
   * The sweep from state `sw` to its end: examine entries until
   * files_per_cleanup files have been counted or the directory is
   * exhausted.
   */
  function Scan(entries: seq<DirEntry>, sw: Sweep, p: SweepParams): (r: Sweep)
    requires sw.pos <= |entries|
    ensures sw.pos <= r.pos <= |entries| && sw.processed <= r.processed
    ensures r.processed >= p.filesPerCleanup || r.pos == |entries|
    decreases |entries| - sw.pos
  {
    if sw.processed >= p.filesPerCleanup || sw.pos == |entries| then sw
    else Scan(entries, Examine(entries, sw, p), p)
  }

  function Sum(s: seq<nat>): nat
    decreases |s|
  {
    if s == [] then 0 else Sum(s[..|s| - 1]) + s[|s| - 1]
  }

  /**
   * The sweep's bookkeeping invariant: total_size is the sum of the kept
   * sizes and within the budget, and every counted file was either
   * deleted or kept.
   */
  predicate Budgeted(sw: Sweep, p: SweepParams) {
    sw.total == Sum(sw.kept) && sw.total <= p.maxCacheSize && |sw.deleted| + |sw.kept| == sw.processed
  }

  /**
   * Examining one entry: a skipped entry changes nothing but the
   * position; a counted file is deleted exactly when it is old or its size
   * would push the total over the budget, and the bookkeeping invariant
   * is kept.
   */
  lemma ExamineDecision(entries: seq<DirEntry>, sw: Sweep, p: SweepParams)
    requires sw.pos < |entries| && Budgeted(sw, p)
    ensures var e := entries[sw.pos]; var r := Examine(entries, sw, p);
      && Budgeted(r, p)
      && (!Countable(e) ==> r == sw.(pos := sw.pos + 1))
      && (Countable(e) ==> r.processed == sw.processed + 1)
      && (Countable(e) ==>
            (|r.deleted| == |sw.deleted| + 1 <==>
               Expired(p.now, e.info.value.mtime, p.cacheTime) || sw.total + e.info.value.size > p.maxCacheSize))
  {
    var e := entries[sw.pos];
    var r := Examine(entries, sw, p);
    if Countable(e) && r.kept != sw.kept {
      assert (sw.kept + [e.info.value.size])[..|sw.kept|] == sw.kept;
    }
  }

  /**
   * Whatever the directory holds, the sweep keeps total_size equal to the
   * sum of the sizes it kept and never above max_cache_size, and counts
   * no more than files_per_cleanup files.
   */
  lemma {:induction false} ScanKeepsBudget(entries: seq<DirEntry>, sw: Sweep, p: SweepParams)
    requires sw.pos <= |entries| && Budgeted(sw, p) && sw.processed <= p.filesPerCleanup
    ensures Budgeted(Scan(entries, sw, p), p)
    ensures Scan(entries, sw, p).processed <= p.filesPerCleanup
    ensures sw.deleted <= Scan(entries, sw, p).deleted && sw.kept <= Scan(entries, sw, p).kept
    decreases |entries| - sw.pos
  {
    if sw.processed < p.filesPerCleanup && sw.pos < |entries| {
      ExamineDecision(entries, sw, p);
      ScanKeepsBudget(entries, Examine(entries, sw, p), p);
    }
  }

  /** How many of the entries would be counted. */
  function CountableCount(es: seq<DirEntry>): nat
    decreases |es|
  {
    if es == [] then 0 else (if Countable(es[0]) then 1 else 0) + CountableCount(es[1..])
  }

  /** Examining an entry moves it from the unread entries to the counted ones when it is countable. */
  lemma ExamineMovesCount(entries: seq<DirEntry>, sw: Sweep, p: SweepParams)
    requires sw.pos < |entries|
    ensures var r := Examine(entries, sw, p);
      r.processed + CountableCount(entries[r.pos..]) == sw.processed + CountableCount(entries[sw.pos..])
  {
    assert entries[sw.pos..][1..] == entries[sw.pos + 1..];
  }

  /**
   * A directory with fewer countable entries than files_per_cleanup is
   * read to its end: the sweep counts every countable entry and stops
   * with files_processed still below the quota.
   */
  lemma {:induction false} ScanReadsShortDirectory(entries: seq<DirEntry>, sw: Sweep, p: SweepParams)
    requires sw.pos <= |entries|
    requires sw.processed + CountableCount(entries[sw.pos..]) < p.filesPerCleanup
    ensures Scan(entries, sw, p).pos == |entries|
    ensures Scan(entries, sw, p).processed == sw.processed + CountableCount(entries[sw.pos..])
    decreases |entries| - sw.pos
  {
    if sw.pos < |entries| {
      ExamineMovesCount(entries, sw, p);
      ScanReadsShortDirectory(entries, Examine(entries, sw, p), p);
    }
  }

  /**
   * A directory holding at least files_per_cleanup countable entries
   * (counting from the current position) makes the sweep meet its quota.
   */
  lemma {:induction false} ScanReachesQuota(entries: seq<DirEntry>, sw: Sweep, p: SweepParams)
    requires sw.pos <= |entries|
    requires sw.processed + CountableCount(entries[sw.pos..]) >= p.filesPerCleanup
    ensures Scan(entries, sw, p).processed >= p.filesPerCleanup
    decreases |entries| - sw.pos
  {
    if sw.processed < p.filesPerCleanup {
      if sw.pos == |entries| {
        assert entries[sw.pos..] == [];
      } else {
        ExamineMovesCount(entries, sw, p);
        ScanReachesQuota(entries, Examine(entries, sw, p), p);
      }
    }
  }

  /** A file whose mtime lies in the future makes now - mtime negative, which reads as huge: it is deleted. */
  lemma FutureMtimeIsExpired(now: int, mtime: int, cacheTime: nat)
    requires cacheTime <= I64_MAX
    requires now < mtime && mtime - now <= I64_MAX + 1
    ensures Expired(now, mtime, cacheTime)
  {
  }

  /**
   * ngx_http_webp_cleanup_cache with the outer loop also ending at the end
   * of the directory (the batches of 100 and the yield between them are
   * kept). The sweep is rescheduled whether or not the directory opened.
   */
  method CleanupCache(p: SweepParams, dirOpened: bool, entries: seq<DirEntry>)
    returns (result: Sweep, next: Schedule)
    ensures result == if dirOpened then Scan(entries, EMPTY_SWEEP, p) else EMPTY_SWEEP
    ensures next == SweepDelay(p.cacheTime, p.filesPerCleanup)
  {
    result := EMPTY_SWEEP;
    if dirOpened {
      var eof := false;
      while result.processed < p.filesPerCleanup && !eof
        invariant result.pos <= |entries|
        invariant Scan(entries, result, p) == Scan(entries, EMPTY_SWEEP, p)
        invariant eof ==> result.pos == |entries|
        decreases |entries| - result.pos + (if eof then 0 else 1)
      {
        var start := result.pos;
        var i := 0;
        while i < BATCH_SIZE && result.processed < p.filesPerCleanup
          invariant result.pos <= |entries| && result.pos == start + i
          invariant Scan(entries, result, p) == Scan(entries, EMPTY_SWEEP, p)
          invariant i == 0 ==> result.processed < p.filesPerCleanup
          invariant eof ==> result.pos == |entries|
          decreases BATCH_SIZE - i
        {
          if result.pos == |entries| {
            eof := true;
            break;
          }
          result := Examine(entries, result, p);
          i := i + 1;
        }
      }
    }
    next := SweepDelay(p.cacheTime, p.filesPerCleanup);
  }

  // The outer loop as written: end of directory only leaves the inner batch.

  /** The inner batch loop from counter i, as written. */
  function BatchAsWritten(entries: seq<DirEntry>, sw: Sweep, p: SweepParams, i: nat): (r: Sweep)
    requires sw.pos <= |entries|
    ensures sw.pos <= r.pos <= |entries|
    decreases BATCH_SIZE - i
  {
    if i >= BATCH_SIZE || sw.processed >= p.filesPerCleanup || sw.pos == |entries| then sw
    else BatchAsWritten(entries, Examine(entries, sw, p), p, i + 1)
  }

  /** The state after k iterations of the as-written outer loop (fewer if its guard fails first). */
  function SweepAsWritten(entries: seq<DirEntry>, sw: Sweep, p: SweepParams, k: nat): (r: Sweep)
    requires sw.pos <= |entries|
    ensures r.pos <= |entries|
    decreases k
  {
    if k == 0 || sw.processed >= p.filesPerCleanup then sw
    else SweepAsWritten(entries, BatchAsWritten(entries, sw, p, 0), p, k - 1)
  }

  lemma {:induction false} BatchKeepsCount(entries: seq<DirEntry>, sw: Sweep, p: SweepParams, i: nat)
    requires sw.pos <= |entries|
    ensures var r := BatchAsWritten(entries, sw, p, i);
      r.pos <= |entries| &&
      r.processed + CountableCount(entries[r.pos..]) == sw.processed + CountableCount(entries[sw.pos..])
    decreases BATCH_SIZE - i
  {
    if !(i >= BATCH_SIZE || sw.processed >= p.filesPerCleanup || sw.pos == |entries|) {
      ExamineMovesCount(entries, sw, p);
      BatchKeepsCount(entries, Examine(entries, sw, p), p, i + 1);
    }
  }

  lemma {:induction false} SweepKeepsCount(entries: seq<DirEntry>, sw: Sweep, p: SweepParams, k: nat)
    requires sw.pos <= |entries|
    ensures var r := SweepAsWritten(entries, sw, p, k);
      r.processed + CountableCount(entries[r.pos..]) == sw.processed + CountableCount(entries[sw.pos..])
    decreases k, 1
  {
    if !(k == 0 || sw.processed >= p.filesPerCleanup) {
      BatchKeepsCount(entries, sw, p, 0);
      KeepsCountAfterBatch(entries, BatchAsWritten(entries, sw, p, 0), p, k);
    }
  }

  /** The remaining k - 1 outer iterations after one batch. */
  lemma {:induction false} KeepsCountAfterBatch(entries: seq<DirEntry>, b: Sweep, p: SweepParams, k: nat)
    requires b.pos <= |entries| && k > 0
    ensures var r := SweepAsWritten(entries, b, p, k - 1);
      r.processed + CountableCount(entries[r.pos..]) == b.processed + CountableCount(entries[b.pos..])
    decreases k, 0
  {
    SweepKeepsCount(entries, b, p, k - 1);
  }

  /** One as-written batch only takes steps of the sweep specification. */
  lemma {:induction false} BatchFollowsScan(entries: seq<DirEntry>, sw: Sweep, p: SweepParams, i: nat)
    requires sw.pos <= |entries|
    ensures Scan(entries, BatchAsWritten(entries, sw, p, i), p) == Scan(entries, sw, p)
    decreases BATCH_SIZE - i
  {
    if !(i >= BATCH_SIZE || sw.processed >= p.filesPerCleanup || sw.pos == |entries|) {
      BatchFollowsScan(entries, Examine(entries, sw, p), p, i + 1);
    }
  }

  /**
   * One as-written batch begun below the quota, where the sweep
   * specification reaches the quota: it reads at least one entry and
   * stays on the path of the specification.
   */
  lemma BatchStep(entries: seq<DirEntry>, sw: Sweep, p: SweepParams, k: nat)
    requires sw.pos <= |entries| && sw.processed < p.filesPerCleanup && k > 0
    requires Scan(entries, sw, p).processed >= p.filesPerCleanup
    ensures var b := BatchAsWritten(entries, sw, p, 0);
      && sw.pos < b.pos <= |entries|
      && Scan(entries, b, p) == Scan(entries, sw, p)
      && SweepAsWritten(entries, sw, p, k) == SweepAsWritten(entries, b, p, k - 1)
  {
    assert BatchAsWritten(entries, sw, p, 0) == BatchAsWritten(entries, Examine(entries, sw, p), p, 1);
    BatchFollowsScan(entries, sw, p, 0);
  }

  lemma {:induction false} SweepAsWrittenAgreesWhenItEnds(entries: seq<DirEntry>, sw: Sweep, p: SweepParams, k: nat)
    requires sw.pos <= |entries|
    requires Scan(entries, sw, p).processed >= p.filesPerCleanup
    requires k >= |entries| - sw.pos + 1
    ensures SweepAsWritten(entries, sw, p, k) == Scan(entries, sw, p)
    decreases k, 1
  {
    if sw.processed < p.filesPerCleanup {
      BatchStep(entries, sw, p, k);
      AgreesAfterBatch(entries, BatchAsWritten(entries, sw, p, 0), p, k);
    }
  }

  /** The remaining k - 1 outer iterations after one batch. */
  lemma {:induction false} AgreesAfterBatch(entries: seq<DirEntry>, b: Sweep, p: SweepParams, k: nat)
    requires b.pos <= |entries| && k > 0
    requires Scan(entries, b, p).processed >= p.filesPerCleanup
    requires k - 1 >= |entries| - b.pos + 1
    ensures SweepAsWritten(entries, b, p, k - 1) == Scan(entries, b, p)
    decreases k, 0
  {
    SweepAsWrittenAgreesWhenItEnds(entries, b, p, k - 1);
    var rest := SweepAsWritten(entries, b, p, k - 1);
    var spec := Scan(entries, b, p);
    assert rest == spec;
  }

  /**
   * The counterpart of SweepAsWrittenNeverEnds: on a directory with at
   * least files_per_cleanup countable entries the as-written sweep ends
   * within one outer iteration per entry, with the quota met and in the
   * state the sweep specification computes.
   */
  lemma SweepAsWrittenEndsOnLongDirectory(entries: seq<DirEntry>, p: SweepParams, k: nat)
    requires CountableCount(entries) >= p.filesPerCleanup
    requires k > |entries|
    ensures SweepAsWritten(entries, EMPTY_SWEEP, p, k) == Scan(entries, EMPTY_SWEEP, p)
    ensures SweepAsWritten(entries, EMPTY_SWEEP, p, k).processed >= p.filesPerCleanup
  {
    assert entries[0..] == entries;
    ScanReachesQuota(entries, EMPTY_SWEEP, p);
    SweepAsWrittenAgreesWhenItEnds(entries, EMPTY_SWEEP, p, k);
  }

  /**
   * As written, a directory with fewer countable entries than
   * files_per_cleanup never ends the sweep: after any number of outer
   * iterations files_processed is still below the quota, so the loop
   * guard holds again.
   */
  lemma SweepAsWrittenNeverEnds(entries: seq<DirEntry>, p: SweepParams, k: nat)
    requires CountableCount(entries) < p.filesPerCleanup
    ensures SweepAsWritten(entries, EMPTY_SWEEP, p, k).processed < p.filesPerCleanup
  {
    SweepKeepsCount(entries, EMPTY_SWEEP, p, k);
  }

  /** Concretely: an empty cache directory with the default quota of 100 keeps the sweep looping. */
  lemma EmptyDirectorySweepNeverEnds(p: SweepParams, k: nat)
    requires p.filesPerCleanup == DEFAULT_FILES_PER_CLEANUP
    ensures SweepAsWritten([], EMPTY_SWEEP, p, k) == EMPTY_SWEEP
    decreases k
  {
    if k > 0 {
      EmptyDirectorySweepNeverEnds(p, k - 1);
    }
  }

  /** The corrected sweep over a short directory reads it to the end and stops. */
  lemma CorrectedSweepEnds(entries: seq<DirEntry>, p: SweepParams)
    requires CountableCount(entries) < p.filesPerCleanup
    ensures Scan(entries, EMPTY_SWEEP, p).pos == |entries|
    ensures Scan(entries, EMPTY_SWEEP, p).processed == CountableCount(entries)
  {
    assert entries[0..] == entries;
    ScanReadsShortDirectory(entries, EMPTY_SWEEP, p);
  }

  // ---------------------------------------------------------------------
  // Rate-plus-burst limiter (ngx_http_webp_limit_req in this file)
  // ---------------------------------------------------------------------

  /**
   * The window step: more than a second after last_checked the count
   * becomes rate * elapsed / 1000 - count in unsigned 64-bit arithmetic,
   * reset to 0 when it reads as negative, and last_checked moves to now.
   */
  function Refill(s: WindowCounter, now: nat, rate: nat): (r: WindowCounter)
    ensures r == s || (r.lastChecked == now && r.count <= I64_MAX)
    ensures SubU64(now, s.lastChecked) <= WINDOW_MS ==> r == s
  {
    var elapsed := SubU64(now, s.lastChecked);
    if elapsed > WINDOW_MS then
      var v := SubU64(((rate * elapsed) % U64_MODULUS) / 1000, s.count);
      WindowCounter(if v > I64_MAX then 0 else v, now)
    else s
  }

  /**
   * Admission as written: excess = count - rate is stored in a signed
   * integer but compared against the unsigned burst_limit, so the
   * comparison is made on the unsigned 64-bit value of the difference.
   */
  predicate AdmitsAsWritten(count: nat, rate: nat, burst: nat)
    ensures 0 <= count - rate < U64_MODULUS ==> (AdmitsAsWritten(count, rate, burst) <==> count - rate < burst)
  {
    SubU64(count, rate) < burst
  }

  /** Admission with the signed comparison the excess variable is declared for. */
  predicate Admits(count: nat, rate: nat, burst: nat) {
    count - rate < burst
  }

  /**
   * Whenever the count is below the rate, the as-written comparison sees
   * a wrapped, huge excess and refuses the request, while the signed
   * comparison admits it; at or above the rate the two agree.
   */
  lemma AdmissionSignedness(count: nat, rate: nat, burst: nat)
    requires IsU64(count) && IsU64(rate) && rate + burst <= U64_MODULUS
    ensures count < rate ==> !AdmitsAsWritten(count, rate, burst) && Admits(count, rate, burst)
    ensures count >= rate ==> (AdmitsAsWritten(count, rate, burst) <==> Admits(count, rate, burst))
  {
  }

  /** With rate 10 and burst 20, an idle limiter (count 0) refuses as written and admits when corrected. */
  lemma IdleLimiterRefusedAsWritten()
    ensures !AdmitsAsWritten(0, 10, 20)
    ensures Admits(0, 10, 20)
  {
  }

  /**
   * One call: the window step, then admission by the corrected signed
   * test (`Admits`; the unsigned test as written is `AdmitsAsWritten`); an
   * admitted request increments the count (wrapping at 2^64), a refused
   * one answers 429 and leaves the count as the window step left it.
   */
  function RateBurstStep(s: WindowCounter, now: nat, rate: nat, burst: nat): (r: (WindowCounter, int))
    ensures r.1 == NGX_OK || r.1 == HTTP_TOO_MANY_REQUESTS
    ensures r.1 == HTTP_TOO_MANY_REQUESTS ==> r.0 == Refill(s, now, rate)
    ensures r.0.lastChecked == Refill(s, now, rate).lastChecked
  {
    var w := Refill(s, now, rate);
    if Admits(w.count, rate, burst) then (WindowCounter((w.count + 1) % U64_MODULUS, w.lastChecked), NGX_OK)
    else (w, HTTP_TOO_MANY_REQUESTS)
  }

  /**
   * The window step leaves the counter unchanged within a second of
   * last_checked; after that it moves last_checked to now and leaves a
   * count that reads as non-negative: the refill minus the old count when
   * that is non-negative, and 0 when the old count exceeds the refill.
   */
  lemma RefillCases(s: WindowCounter, now: nat, rate: nat)
    requires IsU64(s.count) && s.count <= I64_MAX && IsU64(rate) && IsU64(now) && IsU64(s.lastChecked)
    ensures var elapsed := SubU64(now, s.lastChecked); var r := Refill(s, now, rate);
      var refill := ((rate * elapsed) % U64_MODULUS) / 1000;
      && (elapsed <= WINDOW_MS ==> r == s)
      && (elapsed > WINDOW_MS ==> r.lastChecked == now && r.count <= I64_MAX)
      && (elapsed > WINDOW_MS && refill >= s.count && refill - s.count <= I64_MAX ==> r.count == refill - s.count)
      && (elapsed > WINDOW_MS && refill < s.count ==> r.count == 0)
  {
  }

  /**
   * A call is admitted exactly when the count after the window step is
   * below rate + burst; admission adds one to the count, refusal answers
   * 429 without counting.
   */
  lemma RateBurstAdmission(s: WindowCounter, now: nat, rate: nat, burst: nat)
    requires IsU64(s.count) && s.count + 1 < U64_MODULUS
    ensures var w := Refill(s, now, rate); var (s', rc) := RateBurstStep(s, now, rate, burst);
      && (rc == NGX_OK <==> w.count < rate + burst)
      && (rc == NGX_OK || rc == HTTP_TOO_MANY_REQUESTS)
      && (rc == NGX_OK ==> s' == WindowCounter(w.count + 1, w.lastChecked))
      && (rc != NGX_OK ==> s' == w)
  {
  }

  /**
   * rate_limit and burst_limit are zero unless something sets them, and
   * no directive does: with both zero every request is refused, by the
   * as-written comparison and the corrected one alike.
   */
  lemma UnconfiguredLimiterRefusesAll(s: WindowCounter, now: nat)
    ensures RateBurstStep(s, now, 0, 0).1 == HTTP_TOO_MANY_REQUESTS
    ensures !AdmitsAsWritten(Refill(s, now, 0).count, 0, 0)
  {
  }

  /** A sequence of calls at the given times: the final counter and how many were admitted. */
  function RunRateBurst(s: WindowCounter, times: seq<nat>, rate: nat, burst: nat): (WindowCounter, nat)
    decreases |times|
  {
    if times == [] then (s, 0)
    else
      var (s1, rc) := RateBurstStep(s, times[0], rate, burst);
      var (s2, n) := RunRateBurst(s1, times[1..], rate, burst);
      (s2, n + if rc == NGX_OK then 1 else 0)
  }

  /** How many more requests a window admits at a given count: rate + burst minus the count, at least 0. */
  function Headroom(count: nat, rate: nat, burst: nat): nat {
    if count < rate + burst then rate + burst - count else 0
  }

  /**
   * Within one window (no call more than a second after last_checked),
   * n calls against a count c are admitted min(n, rate + burst - c) times:
   * the window holds rate + burst requests in all, and the count stops
   * growing once they are used up.
   */
  lemma {:induction false} RateBurstWindowRun(s: WindowCounter, times: seq<nat>, rate: nat, burst: nat)
    requires forall i :: 0 <= i < |times| ==> SubU64(times[i], s.lastChecked) <= WINDOW_MS
    requires s.count + |times| < U64_MODULUS
    ensures RunRateBurst(s, times, rate, burst).1 == Min(|times|, Headroom(s.count, rate, burst))
    ensures RunRateBurst(s, times, rate, burst).0 ==
      WindowCounter(s.count + Min(|times|, Headroom(s.count, rate, burst)), s.lastChecked)
    decreases |times|
  {
    if times != [] {
      var step := RateBurstStep(s, times[0], rate, burst);
      StepWithinWindow(s, times[0], rate, burst);
      var rest := times[1..];
      forall i | 0 <= i < |rest|
        ensures SubU64(rest[i], s.lastChecked) <= WINDOW_MS
      {
        assert rest[i] == times[i + 1];
      }
      RateBurstWindowRun(step.0, rest, rate, burst);
      var tailRun := RunRateBurst(step.0, rest, rate, burst);
      assert RunRateBurst(s, times, rate, burst) == (tailRun.0, tailRun.1 + if step.1 == NGX_OK then 1 else 0);
    }
  }

  /** Within a second of last_checked the step only admits (adding one) or refuses. */
  lemma StepWithinWindow(s: WindowCounter, now: nat, rate: nat, burst: nat)
    requires SubU64(now, s.lastChecked) <= WINDOW_MS && s.count + 1 < U64_MODULUS
    ensures RateBurstStep(s, now, rate, burst) ==
      if Admits(s.count, rate, burst) then (WindowCounter(s.count + 1, s.lastChecked), NGX_OK)
      else (s, HTTP_TOO_MANY_REQUESTS)
  {
    assert Refill(s, now, rate) == s;
  }

  /** The rate-plus-burst limiter as a stateful object: request_count and last_checked persist across calls. */
  class RateBurstLimiter {
    var requestCount: nat
    var lastChecked: nat

    function State(): WindowCounter
      reads this
    {
      WindowCounter(requestCount, lastChecked)
    }

    /** Both counters are host 64-bit unsigned integers. */
    predicate Valid()
      reads this
    {
      IsU64(requestCount) && IsU64(lastChecked)
    }

    constructor ()
      ensures Valid() && State() == WindowCounter(0, 0)
    {
      requestCount, lastChecked := 0, 0;
    }

    /**
     * ngx_http_webp_limit_req (rate-plus-burst variant) with the signed
     * excess comparison; `now` is ngx_current_msec and `rate`, `burst`
     * are the location's rate_limit and burst_limit.
     */
    method LimitReq(now: nat, rate: nat, burst: nat) returns (rc: int)
      requires Valid() && IsU64(now)
      modifies this
      ensures Valid()
      ensures (State(), rc) == RateBurstStep(old(State()), now, rate, burst)
    {
      var elapsed := SubU64(now, lastChecked);
      if elapsed > WINDOW_MS {
        requestCount := SubU64(((rate * elapsed) % U64_MODULUS) / 1000, requestCount);
        if requestCount > I64_MAX {
          requestCount := 0;
        }
        lastChecked := now;
      }
      var excess := requestCount - rate;
      if excess < burst {
        requestCount := (requestCount + 1) % U64_MODULUS;
        return NGX_OK;
      }
      return HTTP_TOO_MANY_REQUESTS;
    }
  }
}
