/**
 * ngx_http_webp_module.c: the location configuration record with its
 * create and merge steps, and the fixed-window admission limiter that the
 * request handler is linked against.
 */
module WebpModule {
  import opened Nginx

  /** A configuration slot that is either still NGX_CONF_UNSET or holds a value. */
  datatype Field<T> = Unset | Set(value: T)

  /**
   * ngx_http_webp_loc_conf_t. The seven mergeable slots are `Field`s. The
   * shared-memory zone handle and the two complex-value templates are
   * pointers that stay NULL (`None`) unless something stores into them; the
   * two limiter numbers are zeroed by the allocation.
   */
  datatype LocConf = LocConf(
    enable: Field<bool>,
    quality: Field<nat>,
    cacheTime: Field<nat>,
    cacheDir: Field<string>,
    maxImageSize: Field<nat>,
    maxCacheSize: Field<nat>,
    filesPerCleanup: Field<nat>,
    cacheZone: Option<nat>,
    convertIf: Option<string>,
    qualityIf: Option<string>,
    rateLimit: nat,
    burstLimit: nat)

  // Defaults applied by ngx_http_webp_merge_loc_conf
  const DEFAULT_ENABLE: bool := false
  const DEFAULT_QUALITY: nat := 75
  const DEFAULT_CACHE_TIME: nat := 3600
  const DEFAULT_CACHE_DIR: string := "/var/cache/nginx/webp"
  const DEFAULT_MAX_IMAGE_SIZE: nat := 10 * 1024 * 1024
  const DEFAULT_MAX_CACHE_SIZE: nat := 1024 * 1024 * 1024
  const DEFAULT_FILES_PER_CLEANUP: nat := 100

  /** Every slot that the merge step fills holds a value. */
  predicate IsMerged(c: LocConf) {
    && c.enable.Set? && c.quality.Set? && c.cacheTime.Set? && c.cacheDir.Set?
    && c.maxImageSize.Set? && c.maxCacheSize.Set? && c.filesPerCleanup.Set?
  }

  /**
   * ngx_http_webp_create_loc_conf: a zero-filled record from the pool (or
   * NULL when the pool is exhausted) with six slots marked unset; the zero
   * fill leaves cache_dir without data, so it is unset as well.
   */
  function CreateLocConf(allocOk: bool): (r: Option<LocConf>)
    ensures r.Some? <==> allocOk
    ensures r.Some? ==> && r.value.enable.Unset? && r.value.quality.Unset? && r.value.cacheTime.Unset?
                        && r.value.cacheDir.Unset? && r.value.maxImageSize.Unset?
                        && r.value.maxCacheSize.Unset? && r.value.filesPerCleanup.Unset?
    ensures r.Some? ==> r.value.cacheZone.None? && r.value.convertIf.None? && r.value.qualityIf.None?
    ensures r.Some? ==> r.value.rateLimit == 0 && r.value.burstLimit == 0
  {
    if !allocOk then None
    else Some(LocConf(Unset, Unset, Unset, Unset, Unset, Unset, Unset, None, None, None, 0, 0))
  }

  /** ngx_conf_merge_*_value: the child's value if set, else the parent's, else the default. */
  function MergeField<T>(child: Field<T>, parent: Field<T>, default: T): (r: Field<T>)
    ensures r.Set?
    ensures child.Set? ==> r == child
    ensures child.Unset? && parent.Unset? ==> r.value == default
  {
    if child.Set? then child else if parent.Set? then parent else Set(default)
  }

  /**
   * ngx_http_webp_merge_loc_conf: the seven slots are merged field by
   * field; the zone, the complex values and the limiter numbers are taken
   * from the child untouched.
   */
  function MergeLocConf(parent: LocConf, child: LocConf): (r: LocConf)
    ensures IsMerged(r)
    ensures r.cacheZone == child.cacheZone && r.convertIf == child.convertIf && r.qualityIf == child.qualityIf
    ensures r.rateLimit == child.rateLimit && r.burstLimit == child.burstLimit
  {
    child.(
      enable := MergeField(child.enable, parent.enable, DEFAULT_ENABLE),
      quality := MergeField(child.quality, parent.quality, DEFAULT_QUALITY),
      cacheTime := MergeField(child.cacheTime, parent.cacheTime, DEFAULT_CACHE_TIME),
      cacheDir := MergeField(child.cacheDir, parent.cacheDir, DEFAULT_CACHE_DIR),
      maxImageSize := MergeField(child.maxImageSize, parent.maxImageSize, DEFAULT_MAX_IMAGE_SIZE),
      maxCacheSize := MergeField(child.maxCacheSize, parent.maxCacheSize, DEFAULT_MAX_CACHE_SIZE),
      filesPerCleanup := MergeField(child.filesPerCleanup, parent.filesPerCleanup, DEFAULT_FILES_PER_CLEANUP))
  }

  /** The value a merged slot ends up with: child first, then parent, then the default. */
  function Effective<T>(child: Field<T>, parent: Field<T>, default: T): T {
    if child.Set? then child.value else if parent.Set? then parent.value else default
  }

  /** Each merged slot holds the child's value if set, else the parent's if set, else the default. */
  lemma MergeTakesChildThenParentThenDefault(parent: LocConf, child: LocConf)
    ensures var r := MergeLocConf(parent, child);
      && r.enable.value == Effective(child.enable, parent.enable, false)
      && r.quality.value == Effective(child.quality, parent.quality, 75)
      && r.cacheTime.value == Effective(child.cacheTime, parent.cacheTime, 3600)
      && r.cacheDir.value == Effective(child.cacheDir, parent.cacheDir, "/var/cache/nginx/webp")
      && r.maxImageSize.value == Effective(child.maxImageSize, parent.maxImageSize, 10485760)
      && r.maxCacheSize.value == Effective(child.maxCacheSize, parent.maxCacheSize, 1073741824)
      && r.filesPerCleanup.value == Effective(child.filesPerCleanup, parent.filesPerCleanup, 100)
  {
  }

  /**
   * Merging a freshly created child against an unset parent yields exactly
   * the defaults, and the numbers the limiters read stay zero: no
   * directive sets them and the merge does not default them.
   */
  lemma FreshLocationGetsDefaults(allocOk: bool)
    requires allocOk
    ensures var c := CreateLocConf(allocOk).value;
      var r := MergeLocConf(c, c);
      && r.enable == Set(false) && r.quality == Set(75) && r.cacheTime == Set(3600)
      && r.cacheDir == Set("/var/cache/nginx/webp")
      && r.maxImageSize == Set(10485760) && r.maxCacheSize == Set(1073741824)
      && r.filesPerCleanup == Set(100)
      && r.rateLimit == 0 && r.burstLimit == 0 && r.convertIf.None? && r.qualityIf.None?
  {
  }

  /** Merging an already merged child again, against any parent, changes nothing. */
  lemma MergeIdempotent(parent: LocConf, otherParent: LocConf, child: LocConf)
    ensures MergeLocConf(otherParent, MergeLocConf(parent, child)) == MergeLocConf(parent, child)
  {
  }

  /** The quality slot is taken as configured: the merge applies no 0-100 range check. */
  lemma MergeKeepsAnyQuality(parent: LocConf, child: LocConf, q: nat)
    requires child.quality == Set(q)
    ensures MergeLocConf(parent, child).quality.value == q
  {
  }

  // ---------------------------------------------------------------------
  // Fixed-window limiter (ngx_http_webp_limit_req in this file)
  // ---------------------------------------------------------------------

  /** Requests admitted per window before the counter exceeds it. */
  const FIXED_LIMIT: nat := 10

  /** Window length in milliseconds. */
  const WINDOW_MS: nat := 1000

  /** The two static variables of a limiter: request_count and last_checked. */
  datatype WindowCounter = WindowCounter(count: nat, lastChecked: nat)

  /** The window step: more than a second since last_checked starts a new, empty window. */
  function FixedWindowReset(s: WindowCounter, now: nat): (r: WindowCounter)
    ensures r == s || r == WindowCounter(0, now)
    ensures SubU64(now, s.lastChecked) <= WINDOW_MS <==> r == s || s == WindowCounter(0, now)
  {
    if SubU64(now, s.lastChecked) > WINDOW_MS then WindowCounter(0, now) else s
  }

  /**
   * One call of the fixed-window limiter: the counter is incremented on
   * every call (fetch-and-add), and the call is refused when the value
   * before the increment exceeds the limit. Configured rate and burst
   * values play no part.
   */
  function FixedLimitStep(s: WindowCounter, now: nat): (r: (WindowCounter, int))
    ensures r.1 == NGX_OK || r.1 == HTTP_TOO_MANY_REQUESTS
    ensures r.0.count == FixedWindowReset(s, now).count + 1
  {
    var w := FixedWindowReset(s, now);
    (WindowCounter(w.count + 1, w.lastChecked), if w.count > FIXED_LIMIT then HTTP_TOO_MANY_REQUESTS else NGX_OK)
  }

  /** A sequence of calls at the given times: the final counter and how many calls were admitted. */
  function RunFixed(s: WindowCounter, times: seq<nat>): (WindowCounter, nat)
    decreases |times|
  {
    if times == [] then (s, 0)
    else
      var (s1, rc) := FixedLimitStep(s, times[0]);
      var (s2, n) := RunFixed(s1, times[1..]);
      (s2, n + if rc == NGX_OK then 1 else 0)
  }

  function Min(a: int, b: int): int {
    if a <= b then a else b
  }

  /**
   * Within one window (no call more than a second after last_checked), a
   * counter that starts at c admits exactly min(n, 11 - c) of n calls: the
   * first eleven calls of a fresh window pass, every later one is refused,
   * and the counter still counts the refused ones.
   */
  lemma {:induction false} FixedWindowAdmitsFirstEleven(s: WindowCounter, times: seq<nat>)
    requires forall i :: 0 <= i < |times| ==> SubU64(times[i], s.lastChecked) <= WINDOW_MS
    ensures RunFixed(s, times).0 == WindowCounter(s.count + |times|, s.lastChecked)
    ensures RunFixed(s, times).1 == if s.count > FIXED_LIMIT then 0 else Min(|times|, FIXED_LIMIT + 1 - s.count)
    decreases |times|
  {
    if times != [] {
      var s1 := FixedLimitStep(s, times[0]).0;
      assert s1 == WindowCounter(s.count + 1, s.lastChecked);
      FixedWindowAdmitsFirstEleven(s1, times[1..]);
    }
  }

  /** The fixed-window limiter as a stateful object: its counters persist across calls. */
  class FixedWindowLimiter {
    var requestCount: nat
    var lastChecked: nat

    function State(): WindowCounter
      reads this
    {
      WindowCounter(requestCount, lastChecked)
    }

    /** Both static variables start at zero. */
    constructor ()
      ensures State() == WindowCounter(0, 0)
    {
      requestCount, lastChecked := 0, 0;
    }

    /** ngx_http_webp_limit_req (fixed-window variant); `now` is ngx_current_msec. */
    method LimitReq(now: nat) returns (rc: int)
      modifies this
      ensures (State(), rc) == FixedLimitStep(old(State()), now)
      ensures rc == HTTP_TOO_MANY_REQUESTS <==> FixedWindowReset(old(State()), now).count > FIXED_LIMIT
    {
      if SubU64(now, lastChecked) > WINDOW_MS {
        requestCount := 0;
        lastChecked := now;
      }
      var before := requestCount;
      requestCount := requestCount + 1;
      if before > FIXED_LIMIT {
        return HTTP_TOO_MANY_REQUESTS;
      }
      return NGX_OK;
    }
  }
}
