# ngx_http_webp_module in Dafny

This project models the core of an nginx content-phase module. The module answers image requests (`.jpg`, `.jpeg`, `.png`, `.avif`, `.jxl`) that it judges WebP-capable with a WebP rendition of the image. The model covers these parts:

- **Request gate.** `ngx_http_webp_handler` runs a chain of guards: the enable flag, GET, the extension substring, a lookup of the variable named "Accept", `convert_if`, `quality_if` and the admission limiter.
- **Shared cache index.** Entries are kept in a red-black tree keyed by CRC-32 and in an LRU queue. Three operations work on them: lookup (lazy expiry, move-to-front), store and invalidate.
- **Conversion job.** A decoder is picked by a substring test on the path's memory, the image is encoded once, and the result is written into the job context. `convert_image` reads the source and posts the job to the thread pool.
- **`serve_file`.** Only its status mapping is modelled.
- **Timer-driven sweeper.** It deletes old files from the cache directory, or files beyond the size budget.
- **Admission limiters.** There are two competing definitions, each modelled on its own.
- **Location configuration.** The create and merge steps.

The modules follow the source files:

| module | models |
|---|---|
| `Nginx` | host vocabulary: return codes, status codes, errno, 64-bit unsigned arithmetic, C strings and `ngx_strstr` |
| `WebpModule` | `ngx_http_webp_module.c` |
| `WebpCache` | the index half of `ngx_http_webp_cache.c` |
| `WebpConversion` | `ngx_http_webp_conversion.c`, plus the copy of `serve_file` in `ngx_http_webp_header.c` |
| `WebpHandler` | `ngx_http_webp_handler` |
| `WebpInit` | `ngx_http_webp_init.c` |

How the model is built:

- State that the C code updates in place is a class whose methods are tied to pure functions:
  - the shared tree and queue (`ShmCtx`);
  - the job context (`ConvertCtx`);
  - the request's `blocked`/`aio` fields;
  - the zone's data pointer;
  - the static counters of each limiter.
- The properties are proved as lemmas about those functions.
- The rb-tree is modelled as a sequence in search order. The search stops at the first entry whose CRC equals the key's CRC. Entries that share a CRC are kept in insertion order.
- An `ngx_str_t` is a pointer and a length, with no terminating NUL. `ngx_strstr` ignores the length and scans up to the first NUL byte. So a string's memory is modelled as its own bytes followed by a `tail`: whatever lies behind it in memory. `CString` cuts that memory at the first NUL, and `StrStr` is the substring test on the result.
- The queue is modelled as a sequence with its head at index 0.
- The invariant kept by every index operation is `Consistent`: the tree and the queue hold the same multiset of entries, with distinct slab addresses.

The model exposes these behaviours of the system:

- **Store and lookup use different keys.** Store keys an entry by the SHA-1 of the artifact path. The handler probes with the SHA-1 of the unparsed URI. `store_cache` is called from nowhere, and nothing writes the destination file. So after `NGX_AGAIN` the handler serves a path that the job never fills in.
- **Two definitions of `ngx_http_webp_limit_req`.**
  - `ngx_http_webp_module.c` has a fixed limit of 10 with a counter that counts refused calls too. This is the definition the handler is linked against.
  - `ngx_http_webp_init.c` has a rate plus burst definition. It reads `rate_limit` and `burst_limit`, which no directive sets and the merge step does not default. So both stay 0, and this limiter refuses every request.
- **Two definitions of `init_process`.** The module table at ngx_http_webp_module.c:81 registers the `init_process` of ngx_http_webp_module.c:144-149, which only returns NGX_OK. The one in ngx_http_webp_init.c is never called. So `init_shm_zone` is never attached to a zone, and the sweep timer is never armed. `serve_file` also has two copies.
- **The extension tests read past the URI.** `r->uri` is not NUL-terminated. The request line goes on behind it in memory, query string included. So `GET /page?x=.png` passes the handler's extension test. The same applies in the conversion thread: for `/photo.jpg?x=.png`, the PNG decoder is picked.
- **The job ignores the per-request quality.** The job is posted with the location's `quality`, not with the value the handler computed from `quality_if`.

## Model

| member | source | states |
|---|---|---|
| Nginx.ContainsAt | ngx_http_webp_cache.c:20-22 | the substring test holds exactly when the needle occurs at some offset of the haystack |
| Nginx.Contains | ngx_http_webp_cache.c:20-22 | a needle longer than the haystack never occurs; the empty needle always occurs |
| Nginx.SubU64 | ngx_http_webp_init.c:110 | the unsigned 64-bit difference: below 2^64, equal to a - b when that is in range, and a - b + 2^64 when it is negative |
| Nginx.CString | ngx_http_webp_cache.c:20-22 | the string ngx_strstr sees is the longest NUL-free prefix of the memory: it stops at the first NUL, or at the end when there is none |
| Nginx.CStringRunsOn | ngx_http_webp_cache.c:20-22 | a NUL-free string followed by more memory reads as that string followed by the C string of the rest |
| Nginx.StrStrPastLength | ngx_http_webp_cache.c:20-22 | a needle in the memory behind a string is found; when a NUL directly follows the string, only the string's own bytes are searched |
| WebpModule.CreateLocConf | ngx_http_webp_module.c:89-107 | a record exists iff the allocation succeeds; all seven mergeable slots are unset, the zone and templates are absent and both limiter numbers are zero |
| WebpModule.MergeLocConf | ngx_http_webp_module.c:109-124 | the result has every mergeable slot set; zone, templates, rate and burst are the child's, untouched |
| WebpModule.MergeField | ngx_http_webp_module.c:115-121 | a merged slot is always set; a set child is kept; with both unset it takes the default |
| WebpModule.MergeTakesChildThenParentThenDefault | ngx_http_webp_module.c:115-121 | each slot is the child's value if set, else the parent's, else 0 / 75 / 3600 / "/var/cache/nginx/webp" / 10 MiB / 1 GiB / 100 |
| WebpModule.FreshLocationGetsDefaults | ngx_http_webp_module.c:99-121 | a fresh location merged against an unset parent gets exactly the defaults, and rate and burst stay 0 |
| WebpModule.MergeIdempotent | ngx_http_webp_module.c:115-121 | merging an already merged record again, against any parent, changes nothing |
| WebpModule.MergeKeepsAnyQuality | ngx_http_webp_module.c:116 | a configured quality is kept as is, with no 0-100 range check |
| WebpModule.FixedLimitStep | ngx_http_webp_module.c:151-171 | the answer is OK or 429, and the counter is incremented on every call, refused ones included |
| WebpModule.FixedWindowReset | ngx_http_webp_module.c:161-164 | the counters are kept, or reset to (0, now); they are kept iff at most a second has passed (or they already read (0, now)) |
| WebpModule.FixedWindowAdmitsFirstEleven | ngx_http_webp_module.c:159-170 | within one window a counter at c admits exactly min(n, 11 - c) of n calls and ends at c + n |
| WebpModule.FixedWindowLimiter.constructor | ngx_http_webp_module.c:155-156 | both static counters start at zero |
| WebpModule.FixedWindowLimiter.LimitReq | ngx_http_webp_module.c:151-171 | new counters and answer follow the window step; 429 iff the pre-increment count exceeds 10 |
| WebpCache.FirstWithCrc | ngx_http_webp_cache.c:104-117 | the search yields the first entry carrying the CRC, or none iff no entry carries it |
| WebpCache.KeyMatches | ngx_http_webp_cache.c:120 | an empty probe matches every key; a probe as long as the key matches iff it equals the key |
| WebpCache.LookupIndex | ngx_http_webp_cache.c:90-141 | no entry with the CRC leaves the index alone and misses; a hit leaves the tree alone and puts an entry with the returned path at the queue head; lookup never adds to the tree |
| WebpCache.LookupKeepsConsistent | ngx_http_webp_cache.c:90-141 | lookup keeps tree and queue holding the same entries with distinct addresses |
| WebpCache.LookupMissLeavesIndex | ngx_http_webp_cache.c:107-140 | with no CRC match, or a CRC match whose key bytes differ, lookup misses and changes nothing |
| WebpCache.LookupExpiredEvicts | ngx_http_webp_cache.c:119-127 | a matching entry with expire < now is removed from both tree and queue and the lookup misses |
| WebpCache.LookupHitPromotes | ngx_http_webp_cache.c:129-133 | a live match (expire >= now) returns its path and moves to the queue head; tree and entry set unchanged |
| WebpCache.LookupHitIsLiveMatch | ngx_http_webp_cache.c:119-134 | a hit only returns the path of an indexed, unexpired entry whose key matches the probe |
| WebpCache.StoreKeepsConsistent | ngx_http_webp_cache.c:158-177 | linking a new entry keeps the invariant, adds exactly that entry, and puts it at the queue head |
| WebpCache.StoredEntry | ngx_http_webp_cache.c:151-171 | the new entry is keyed by the SHA-1 of its own path, carries the CRC-32 of that key, sits at the given slab address and expires at now + cache_time |
| WebpCache.StoreIndex | ngx_http_webp_cache.c:173-174 | linking adds exactly the new entry to the tree and to the queue, at the queue head in front of the old queue |
| WebpCache.FirstWithCrcAppend | ngx_http_webp_cache.c:173-174 | in the model's insertion order, an entry inserted with an equal CRC lies behind the existing ones in search order |
| WebpCache.StoredEntryLivesForCacheTime | ngx_http_webp_cache.c:121-133 | an entry stored at time t, first with its CRC, is found by its own key at every now <= t + cache_time and missed after that |
| WebpCache.StoreThenLookupHits | ngx_http_webp_cache.c:165-172 | a freshly stored entry, first with its CRC, is found by its own key until it expires |
| WebpCache.HandlerProbeMissesStoredEntry | ngx_http_webp_cache.c:62-75 | in any index whose entries were keyed by SHA-1 of their own path, the handler's probe SHA-1(unparsed URI) misses whenever it differs from every stored digest |
| WebpCache.InvalidateOutcomes | ngx_http_webp_cache.c:202-257 | 400 iff no key argument; 200 iff the first CRC match's key matches, removing it from both structures and reporting its path; otherwise 404 with nothing changed |
| WebpCache.InvalidateIndex | ngx_http_webp_cache.c:202-257 | the answer is 200, 400 or 404; 400 iff no key argument; a path is reported for deletion iff 200; anything but 200 leaves the index alone; 200 removes one tree entry |
| WebpCache.EmptyKeyInvalidatesAnyEntryWithItsCrc | ngx_http_webp_cache.c:213-235 | an empty cache_key compares zero bytes and invalidates the first entry with its CRC |
| WebpCache.InvalidateThenLookupMisses | ngx_http_webp_cache.c:215-238 | after invalidating a key whose CRC is unique, a lookup of that key misses |
| WebpCache.DuplicateStoreSurvivesInvalidate | ngx_http_webp_cache.c:173-174 | storing one key twice links two entries; in the model's insertion order, invalidating removes the first and lookup still finds the second |
| WebpCache.ShmCtx.constructor | ngx_http_webp_init.c:63-64 | a new context has an empty tree and an empty queue |
| WebpCache.ShmCtx.FindByCrc | ngx_http_webp_cache.c:104-117 | the loop finds the first entry with the CRC, or reports that none carries it |
| WebpCache.ShmCtx.Lookup | ngx_http_webp_cache.c:90-141 | result and new tree/queue are those of the lookup specification; the invariant is kept |
| WebpCache.ShmCtx.Store | ngx_http_webp_cache.c:143-200 | a failed slab allocation returns ERROR with nothing changed; otherwise the entry is linked, and a failed open or short write returns ERROR with it still linked |
| WebpCache.ShmCtx.Invalidate | ngx_http_webp_cache.c:202-257 | status, deleted path and new tree/queue are those of the invalidate specification; the invariant is kept |
| WebpConversion.Dispatch | ngx_http_webp_conversion.c:12-53 | the memory at src_path.data is tested up to its first NUL: no decoder iff it contains none of the extensions (".jxl" only counting with JPEG XL support); ".png" always wins |
| WebpConversion.DispatchPriority | ngx_http_webp_conversion.c:12-53 | the tests run in the order ".png", ".jpg"/".jpeg", ".avif", ".jxl" (only with JPEG XL support): each decoder is picked iff its extension is present and no earlier one is |
| WebpConversion.TailCanPickDecoder | ngx_http_webp_conversion.c:12-14 | when ".png" lies in the memory behind a NUL-free path, the PNG decoder is picked whatever the path says |
| WebpConversion.QueryStringPicksPngDecoder | ngx_http_webp_conversion.c:12-14 | "/photo.jpg" followed in memory by "?x=.png" is decoded as PNG |
| WebpConversion.DecodeImage | ngx_http_webp_conversion.c:12-53 | with no decoder there are neither pixels nor dimensions; apart from AVIF, a decoder that yields pixels also yields dimensions |
| WebpConversion.ConvertJob | ngx_http_webp_conversion.c:12-74 | a job is encoded only when some decoder was picked, and its output is the encoder's output for the decoded pixels, dimensions and the job's quality |
| WebpConversion.NoPixelsFailsWithoutEncoding | ngx_http_webp_conversion.c:55-59 | without a pixel buffer the job fails, whatever the encoder would do |
| WebpConversion.UnmatchedPathFails | ngx_http_webp_conversion.c:12-59 | a path with no known extension always fails |
| WebpConversion.AvifConversionFailureStillEncodes | ngx_http_webp_conversion.c:16-36 | a parsed AVIF whose RGB conversion failed is still encoded, with dimensions unset |
| WebpConversion.ConvertJobSucceedsIff | ngx_http_webp_conversion.c:55-74 | the job succeeds iff a decoder ran, produced pixels and the encoder returned a buffer |
| WebpConversion.ConvertCtx.constructor | ngx_http_webp_conversion.c:90 | a zero-filled context, whose result reads as NGX_OK |
| WebpConversion.ConvertCtx.ConvertThreadHandler | ngx_http_webp_conversion.c:3-75 | the job dispatches on the source path together with the memory behind it; on failure result is ERROR and the output fields are untouched; on success result is OK and data and size are the encoder's output |
| WebpConversion.ConvertImageOutcomes | ngx_http_webp_conversion.c:77-165 | AGAIN iff every step succeeds with size <= max_image_size; 413 iff the stat size exceeds it; ERROR otherwise |
| WebpConversion.ConvertImageStatus | ngx_http_webp_conversion.c:77-165 | the answer is AGAIN, 413 or ERROR; 413 only for a stat size above the limit; AGAIN only after the read succeeded and the task was posted |
| WebpConversion.ConvertImage | ngx_http_webp_conversion.c:77-165 | on AGAIN a fresh job carries source bytes, stat size, both paths (with the memory behind the source path) and the location's quality, and the request is blocked once more and marked aio; otherwise nothing is posted |
| WebpConversion.ServeFileStatusMapping | ngx_http_webp_conversion.c:187-206 | 404 iff ENOENT/ENOTDIR/ENAMETOOLONG, 403 iff EACCES, 500 for any other errno; a non-regular file declines; only a regular file is sent |
| WebpConversion.ServeFileStatus | ngx_http_webp_conversion.c:187-206 | the function goes on to send iff the open gave a regular file; otherwise it stops with 404, 403, 500 or DECLINED |
| WebpConversion.ServeFileWithHeaderStatus | ngx_http_webp_header.c:20-59 | when the extra header cannot be pushed the answer is ERROR; otherwise the same mapping as the conversion.c copy |
| WebpHandler.Atoi | ngx_http_webp_cache.c:49-50 | a number is read iff the value is non-empty and all digits |
| WebpHandler.AtoiDecimal | ngx_http_webp_cache.c:49-50 | reading back the decimal rendering of n gives n |
| WebpHandler.AtoiLeadingZero | ngx_http_webp_cache.c:49-50 | a leading zero does not change the value read |
| WebpHandler.DeclinesUnlessEligible | ngx_http_webp_cache.c:15-42 | the gate declines iff the location is disabled, the method is not GET, the URI's memory up to the first NUL has no image extension, the looked-up "Accept" value is missing or lacks image/webp, or convert_if says off |
| WebpHandler.IsImageUri | ngx_http_webp_cache.c:20-24 | a URI memory passing the extension test has a C string of at least four bytes, the shortest extension |
| WebpHandler.Eligible | ngx_http_webp_cache.c:15-31 | an eligible request is a GET whose URI memory reads as at least four bytes, with a looked-up "Accept" value at least as long as "image/webp" |
| WebpHandler.PreLimit | ngx_http_webp_cache.c:15-56 | an ineligible request declines; a proceeding request carries a quality of at most 100 from quality_if, or the location's quality without it; a failure needs convert_if or quality_if |
| WebpHandler.UriTestReadsPastLength | ngx_http_webp_cache.c:19-24 | an extension in the memory behind the URI qualifies it; when a NUL directly follows the URI, only its own bytes are tested |
| WebpHandler.QueryStringPassesExtensionTest | ngx_http_webp_cache.c:19-24 | any NUL-free path followed in memory by "?x=.png" and the rest of the request line passes the extension test |
| WebpHandler.EligibleWithoutTemplatesProceeds | ngx_http_webp_cache.c:15-56 | without templates an eligible request proceeds with the location's quality |
| WebpHandler.ConvertIfOutcomes | ngx_http_webp_cache.c:33-42 | convert_if: evaluation error fails, "" or "0" declines, any other value acts as if unset |
| WebpHandler.QualityIfOutcomes | ngx_http_webp_cache.c:44-56 | quality_if: proceeds iff the value is a decimal number of at most 100, carrying it; anything else fails |
| WebpHandler.QualityIfRenderedNumber | ngx_http_webp_cache.c:44-56 | a rendered n proceeds with quality n when n <= 100 and fails above |
| WebpHandler.ExtensionIsSubstringNotSuffix | ngx_http_webp_cache.c:20-25 | "/a.png.html", followed by a NUL, passes the extension test |
| WebpHandler.GateAndDispatchAgree | ngx_http_webp_cache.c:20-25 | for the same memory, every path with a decoder passes the gate; a gated URI lacks a decoder only when ".jxl" is its sole extension and JPEG XL support is off |
| WebpHandler.DstPath | ngx_http_webp_cache.c:67-70 | the destination path is the directory length plus 46 characters |
| WebpHandler.DstPathInjective | ngx_http_webp_cache.c:67-70 | distinct digests give distinct destination files within one directory |
| WebpHandler.ServeOutcome | ngx_http_webp_conversion.c:187-206 | a file is sent iff it opened as a regular file, and it is the named path |
| WebpHandler.Handle | ngx_http_webp_cache.c:3-88 | declines and failures touch nothing; 429 comes before hashing or index access; a hit serves the entry's path; a miss converts the URI together with the memory behind it, only ERROR becomes 500, any other code serves the destination; the job carries the location's quality |
| WebpInit.InitShmZone | ngx_http_webp_init.c:47-68 | existing data is adopted; otherwise a fresh empty context is installed, or ERROR leaves the zone as it was |
| WebpInit.SweepDelayCases | ngx_http_webp_init.c:126-130 | defaults give 36000 ms; a zero files_per_cleanup divides by zero; otherwise cache_time*1000/files_per_cleanup |
| WebpInit.SweepDelay | ngx_http_webp_init.c:126-130 | a zero files_per_cleanup is a division by zero and nothing else is; an armed delay fits in 64 bits |
| WebpInit.InitProcess | ngx_http_webp_init.c:3-45 | OK iff allocation, directory creation (EEXIST tolerated), chmod and event allocation succeed, and then the sweep timer is armed with the sweep delay |
| WebpInit.ExamineDecision | ngx_http_webp_init.c:92-117 | skipped entries change only the position; a counted file is deleted iff it is old or would push the total over max_cache_size; the bookkeeping invariant is kept |
| WebpInit.Expired | ngx_http_webp_init.c:110 | for an age between 0 and 2^64 a file is old iff its age exceeds cache_time |
| WebpInit.Examine | ngx_http_webp_init.c:86-118 | examining one entry moves the directory handle forward by exactly one |
| WebpInit.Scan | ngx_http_webp_init.c:85-122 | the sweep never moves backward or past the end, never uncounts a file, and stops only at the quota or at the end of the directory |
| WebpInit.ScanKeepsBudget | ngx_http_webp_init.c:85-122 | total_size stays the sum of the kept sizes and at most max_cache_size, and at most files_per_cleanup files are counted |
| WebpInit.ScanReadsShortDirectory | ngx_http_webp_init.c:85-122 | with fewer countable entries than the quota the sweep reads to the end and counts each of them |
| WebpInit.ScanReachesQuota | ngx_http_webp_init.c:85-122 | when enough countable files remain, the sweep reaches files_per_cleanup |
| WebpInit.FutureMtimeIsExpired | ngx_http_webp_init.c:110 | a file modified in the future counts as old and is deleted |
| WebpInit.CleanupCache | ngx_http_webp_init.c:70-131 | the nested batch loops compute the sweep specification, and the next sweep is scheduled even when the directory did not open |
| WebpInit.BatchAsWritten | ngx_http_webp_init.c:86-118 | one inner batch only moves the directory handle forward |
| WebpInit.SweepAsWritten | ngx_http_webp_init.c:85-122 | the outer loop as written never moves past the end of the directory |
| WebpInit.SweepAsWrittenNeverEnds | ngx_http_webp_init.c:85-122 | with fewer countable files than the quota, files_processed stays below the quota after any number of outer iterations |
| WebpInit.BatchKeepsCount | ngx_http_webp_init.c:86-118 | one inner batch keeps files_processed plus the countable files still ahead constant |
| WebpInit.SweepKeepsCount | ngx_http_webp_init.c:85-122 | the outer loop as written keeps files_processed plus the countable files still ahead constant |
| WebpInit.BatchFollowsScan | ngx_http_webp_init.c:86-118 | one inner batch as written is a prefix of the sweep specification: sweeping on from its result gives the same final state |
| WebpInit.BatchStep | ngx_http_webp_init.c:85-118 | while the quota is unmet but reachable, one batch moves the handle forward, stays on the specification, and the outer loop continues from it |
| WebpInit.SweepAsWrittenAgreesWhenItEnds | ngx_http_webp_init.c:85-122 | when the quota is reachable, enough outer iterations of the loop as written end in exactly the sweep specification's state |
| WebpInit.SweepAsWrittenEndsOnLongDirectory | ngx_http_webp_init.c:85-122 | with at least files_per_cleanup countable files, the loop as written ends, in the specification's state, having counted the quota |
| WebpInit.EmptyDirectorySweepNeverEnds | ngx_http_webp_init.c:85-122 | an empty directory with the default quota leaves the sweep state unchanged forever |
| WebpInit.CorrectedSweepEnds | ngx_http_webp_init.c:85-122 | the corrected sweep over a short directory reaches its end and stops |
| WebpInit.AdmissionSignedness | ngx_http_webp_init.c:154-156 | below the rate the as-written comparison refuses while the signed one admits; at or above it they agree |
| WebpInit.IdleLimiterRefusedAsWritten | ngx_http_webp_init.c:154-156 | rate 10, burst 20, count 0: refused as written, admitted when corrected |
| WebpInit.RefillCases | ngx_http_webp_init.c:144-152 | no change within a second; afterwards last_checked = now and the count is refill minus count, or 0 when that is negative |
| WebpInit.Refill | ngx_http_webp_init.c:144-152 | within a second the counters are unchanged; otherwise last_checked becomes now and the count reads as non-negative |
| WebpInit.AdmitsAsWritten | ngx_http_webp_init.c:154-156 | when count - rate is in range, the as-written test admits iff count - rate < burst |
| WebpInit.RateBurstStep | ngx_http_webp_init.c:133-164 | the answer is OK or 429; 429 leaves the counters as the window step left them; last_checked is the window step's either way |
| WebpInit.StepWithinWindow | ngx_http_webp_init.c:143-163 | within one window a call admits iff the signed test passes, adding one to the count, and otherwise answers 429 with nothing changed |
| WebpInit.RateBurstAdmission | ngx_http_webp_init.c:154-163 | with the corrected signed test: admitted iff the refilled count is below rate + burst; admission adds one, refusal answers 429 without counting |
| WebpInit.UnconfiguredLimiterRefusesAll | ngx_http_webp_init.c:154-163 | with rate and burst both 0 (never set) every request is refused, as written and corrected |
| WebpInit.RateBurstWindowRun | ngx_http_webp_init.c:143-163 | with the corrected signed test: within one window n calls against count c admit min(n, rate + burst - c) |
| WebpInit.RateBurstLimiter.constructor | ngx_http_webp_init.c:137-138 | both static counters start at zero |
| WebpInit.RateBurstLimiter.LimitReq | ngx_http_webp_init.c:133-164 | new counters and answer follow the window step and the signed admission test |

## Left out

- Image codecs are foreign libraries. WebPDecodePNG/JPEG, libavif, libjxl and WebPEncodeRGBA are parameters that return a buffer or nothing. JPEG XL support is a boolean.
- SHA-1 and CRC-32 are uninterpreted parameters.
  - The model takes the digest as a 40-character string.
  - How the digest buffer is formatted (raw bytes printed with `%s`) is not modelled.
- The entry's key array has room for `SHA256_DIGEST_LENGTH * 2` = 64 bytes (ngx_http_webp_module.h:49). Store copies only the 40 bytes of its `SHA_DIGEST_LENGTH * 2` buffer into it (ngx_http_webp_cache.c:151,169). The model's key is those 40 bytes; the 24 bytes after them are not modelled.
- WebpCache.KeyMatches: a probe longer than the 40 stored bytes counts as a mismatch. The source would compare on into the unfilled rest of the 64-byte array.
- WebpCache.StoreIndex: entries that share a CRC-32 are kept in insertion order. In the source, `ngx_rbtree_insert` sends an equal key to the right of the node it meets, but rebalancing rotations can change which equal-CRC entry a search meets first. So WebpCache.FirstWithCrcAppend and WebpCache.DuplicateStoreSurvivesInvalidate hold for the model's order, not for every tree shape.
- What lies behind a string in memory (the `tail` of the URI and of the source path) is a parameter. For the URI, nginx's request parsing decides it; the model does not derive it.
- WebpHandler.Eligible: `accept` stands for whatever `ngx_http_get_variable` returns for the name "Accept" (ngx_http_webp_cache.c:26, ngx_http_webp_module.h:21), not for the request's Accept header. nginx names that header's variable `http_accept`. What nginx returns for an unknown variable name, and the bytes its `data` points to, are outside this model. The value's bytes are taken to be all that ngx_strstr reads.
- `ngx_open_file(src_path->data, ...)` in `convert_image` also reads the path as a C string, so it opens the path with the query string attached. The open is an outcome parameter, so this is not modelled.
- Concurrency is not modelled: the slab mutex, shared memory, the slab allocator and the thread pool. Each critical section is one atomic step. Slab allocation is a "may fail" input. The limiter's atomic fetch-and-add is a plain increment.
- Red-black tree balancing is not modelled. The tree is a sequence in search order.
- File system calls (open, read, write, delete, readdir, stat, mkdir, chmod) are not performed. Each is an outcome parameter. A deletion is recorded as a path.
- Invalidate reads `entry->path` after releasing the entry. The model uses the path captured before the release.
- `serve_file` beyond its status mapping is not modelled: the open-file cache, headers and the output filter. Sending a file is the `SendFile` outcome.
- Directive tables, module registration, `ngx_http_webp_set_complex_value_slot` and the `ngx_http_webp_init` phase registration are not modelled. Complex-value evaluation is the `eval` parameter.
- The `init_process` of ngx_http_webp_module.c:144-149 only returns NGX_OK, so it has no member. WebpInit.InitProcess models the unregistered one in ngx_http_webp_init.c.
- The header push in ngx_http_webp_header.c is a boolean outcome.
- The yield to posted events between sweep batches is not modelled. It does not change the sweep's state.
- WebpInit.Examine: the running total is unbounded. The 64-bit wrap-around of `total_size` is not modelled.
- WebpModule.FixedLimitStep: the counter is unbounded. Its 64-bit wrap-around is not modelled.
- WebpHandler.Atoi: ngx_atoi's overflow check is not modelled. Any value that would overflow is far above 100 and fails the same way.
- WebpHandler.Handle: the shared context is a parameter. No directive sets `cache_zone`, so the source would dereference a NULL zone in lookup. The model does not capture that crash.
- WebpInit.InitProcess: the source reads the shared zone through the same NULL `cache_zone`. The model takes the zone as given and does not capture that crash.
- Nothing reads the finished job back into the response.
- The module's headers declare functions with a linkage that conflicts with the static definitions in ngx_http_webp_init.c. The model keeps each definition as its own member.

## Findings

| source | as written | input that shows it | evidently intended | confidence | as-written member | corrected member |
|---|---|---|---|---|---|---|
| ngx_http_webp_init.c:85-122 | the outer loop runs while files_processed < files_per_cleanup; a failed readdir only breaks the inner batch loop | a cache directory with fewer countable files than files_per_cleanup, e.g. an empty one with the default 100 | end the sweep at the end of the directory | not executed | WebpInit.SweepAsWrittenNeverEnds | WebpInit.CleanupCache |
| ngx_http_webp_init.c:154-156 | the signed excess is compared with the unsigned burst_limit, so a count below the rate wraps to a huge excess | rate_limit 10, burst_limit 20, request_count 0: refused with 429 | signed comparison: admit while count - rate < burst | not executed | WebpInit.IdleLimiterRefusedAsWritten | WebpInit.RateBurstLimiter.LimitReq |
