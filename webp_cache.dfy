/**
 * The shared cache index of ngx_http_webp_cache.c: entries live in an
 * ordered tree keyed by a CRC-32 of their digest key and in a recency
 * queue whose head is the most recently used entry. Lookup expires
 * entries lazily and promotes hits, store links a new entry into both
 * structures, invalidate unlinks one from both.
 *
 * The red-black tree is modelled by the sequence of its entries in the
 * order the search meets them; the search stops at the first entry whose
 * CRC equals the probe's, as the descent stops at the first node whose
 * key equals the hash. Among entries with equal CRCs that order is the
 * order of insertion: the source's rotations may reorder them, and the
 * model does not follow that. The queue is a sequence with its head at
 * index 0. The mutex around each operation makes it one atomic step.
 */
module WebpCache {
  import opened Nginx

  /**
   * Bytes of a digest key that matter: the entry's key array has room for
   * SHA256_DIGEST_LENGTH * 2 = 64 bytes, but store fills only the first
   * SHA_DIGEST_LENGTH * 2 = 40 and lookup and invalidate compare at most 40.
   */
  const KEY_LEN: nat := 40

  type Digest = s: string | |s| == KEY_LEN witness "0000000000000000000000000000000000000000"

  /**
   * ngx_http_webp_cache_entry_t. `node` is the slab address of the entry,
   * which gives it its identity in both structures; `crc` is the tree key.
   */
  datatype Entry = Entry(node: nat, crc: nat, key: Digest, path: string, expire: int)

  /** The two structures of ngx_http_webp_shm_ctx_t. */
  datatype Index = Index(tree: seq<Entry>, queue: seq<Entry>)

  predicate DistinctNodes(s: seq<Entry>) {
    forall i, j :: 0 <= i < j < |s| ==> s[i].node != s[j].node
  }

  /** The tree and the queue hold the same entries, and no slab address is linked twice. */
  predicate Consistent(ix: Index) {
    multiset(ix.tree) == multiset(ix.queue) && DistinctNodes(ix.tree)
  }

  /** The tree search: the position of the first entry whose CRC equals `crc`, if any. */
  function FirstWithCrc(tree: seq<Entry>, crc: nat): (r: Option<nat>)
    ensures r.Some? ==> r.value < |tree| && tree[r.value].crc == crc
    ensures r.Some? ==> forall j :: 0 <= j < r.value ==> tree[j].crc != crc
    ensures r.None? <==> forall j :: 0 <= j < |tree| ==> tree[j].crc != crc
    decreases |tree|
  {
    if tree == [] then None
    else if tree[0].crc == crc then Some(0)
    else match FirstWithCrc(tree[1..], crc)
      case None => None
      case Some(i) => Some(i + 1)
  }

  /**
   * ngx_memcmp(entry->key, probe, |probe|) == 0: only the first |probe|
   * bytes of the stored key are compared, so the probe must be a prefix.
   */
  predicate KeyMatches(stored: Digest, probe: string)
    ensures probe == [] ==> KeyMatches(stored, probe)
    ensures |probe| == |stored| ==> (KeyMatches(stored, probe) <==> probe == stored)
  {
    |probe| <= |stored| && stored[..|probe|] == probe
  }

  /** ngx_rbtree_delete of the node at position i. */
  function RemoveAt(s: seq<Entry>, i: nat): seq<Entry>
    requires i < |s|
  {
    s[..i] + s[i + 1..]
  }

  /** ngx_queue_remove of the queue link of entry e. */
  function Unlink(q: seq<Entry>, e: Entry): seq<Entry>
    decreases |q|
  {
    if q == [] then []
    else if q[0] == e then q[1..]
    else [q[0]] + Unlink(q[1..], e)
  }

  lemma RemoveAtMultiset(s: seq<Entry>, i: nat)
    requires i < |s|
    ensures multiset(RemoveAt(s, i)) == multiset(s) - multiset{s[i]}
  {
    assert s == s[..i] + [s[i]] + s[i + 1..];
  }

  lemma RemoveAtDistinct(s: seq<Entry>, i: nat)
    requires i < |s| && DistinctNodes(s)
    ensures DistinctNodes(RemoveAt(s, i))
    ensures s[i] !in RemoveAt(s, i)
  {
    var r := RemoveAt(s, i);
    forall k | 0 <= k < |r|
      ensures r[k] == if k < i then s[k] else s[k + 1]
    {
    }
  }

  lemma {:induction false} UnlinkMultiset(q: seq<Entry>, e: Entry)
    requires e in q
    ensures multiset(Unlink(q, e)) == multiset(q) - multiset{e}
    decreases |q|
  {
    assert q == [q[0]] + q[1..];
    if q[0] != e {
      UnlinkMultiset(q[1..], e);
    }
  }

  // ---------------------------------------------------------------------
  // Lookup
  // ---------------------------------------------------------------------

  /**
   * ngx_http_webp_lookup_cache on an index value: the path found (None
   * for NGX_DECLINED) and the index afterwards.
   */
  function LookupIndex(ix: Index, crc: nat, key: string, now: int): (r: (Option<string>, Index))
    ensures FirstWithCrc(ix.tree, crc).None? ==> r == (None, ix)
    ensures r.0.Some? ==> r.1.tree == ix.tree && |r.1.queue| > 0 && r.1.queue[0].path == r.0.value
    ensures |r.1.tree| <= |ix.tree|
  {
    match FirstWithCrc(ix.tree, crc)
    case None => (None, ix)
    case Some(i) =>
      var e := ix.tree[i];
      if !KeyMatches(e.key, key) then (None, ix)
      else if e.expire < now then (None, Index(RemoveAt(ix.tree, i), Unlink(ix.queue, e)))
      else (Some(e.path), Index(ix.tree, [e] + Unlink(ix.queue, e)))
  }

  /** Lookup keeps the tree and the queue holding the same entries. */
  lemma LookupKeepsConsistent(ix: Index, crc: nat, key: string, now: int)
    requires Consistent(ix)
    ensures Consistent(LookupIndex(ix, crc, key, now).1)
  {
    var f := FirstWithCrc(ix.tree, crc);
    if f.Some? {
      var e := ix.tree[f.value];
      assert e in multiset(ix.queue);
      if KeyMatches(e.key, key) {
        UnlinkMultiset(ix.queue, e);
        if e.expire < now {
          RemoveAtMultiset(ix.tree, f.value);
          RemoveAtDistinct(ix.tree, f.value);
        }
      }
    }
  }

  /**
   * When no entry carries the probe's CRC, or the first one that does
   * holds different key bytes, lookup is a miss and changes nothing.
   */
  lemma LookupMissLeavesIndex(ix: Index, crc: nat, key: string, now: int)
    requires FirstWithCrc(ix.tree, crc).None? ||
             !KeyMatches(ix.tree[FirstWithCrc(ix.tree, crc).value].key, key)
    ensures LookupIndex(ix, crc, key, now) == (None, ix)
  {
  }

  /**
   * A matching entry whose expiry lies strictly before `now` is unlinked
   * from both the tree and the queue and the lookup is a miss; the
   * backing file is not touched.
   */
  lemma LookupExpiredEvicts(ix: Index, crc: nat, key: string, now: int, i: nat)
    requires Consistent(ix)
    requires FirstWithCrc(ix.tree, crc) == Some(i)
    requires KeyMatches(ix.tree[i].key, key) && ix.tree[i].expire < now
    ensures var (r, ix') := LookupIndex(ix, crc, key, now);
      && r.None?
      && multiset(ix'.tree) == multiset(ix.tree) - multiset{ix.tree[i]}
      && ix.tree[i] !in ix'.tree && ix.tree[i] !in ix'.queue
      && Consistent(ix')
  {
    LookupKeepsConsistent(ix, crc, key, now);
    RemoveAtMultiset(ix.tree, i);
    RemoveAtDistinct(ix.tree, i);
    var ix' := LookupIndex(ix, crc, key, now).1;
    assert ix.tree[i] !in multiset(ix'.tree);
  }

  /**
   * A matching entry that has not expired (expire >= now, so an entry
   * expiring this very second still hits) is returned and moved to the
   * head of the queue; the tree, the entry and the set of entries stay
   * as they were, and the other entries keep their relative order.
   */
  lemma LookupHitPromotes(ix: Index, crc: nat, key: string, now: int, i: nat)
    requires Consistent(ix)
    requires FirstWithCrc(ix.tree, crc) == Some(i)
    requires KeyMatches(ix.tree[i].key, key) && ix.tree[i].expire >= now
    ensures var (r, ix') := LookupIndex(ix, crc, key, now);
      && r == Some(ix.tree[i].path)
      && ix'.tree == ix.tree
      && ix'.queue[0] == ix.tree[i]
      && ix'.queue[1..] == Unlink(ix.queue, ix.tree[i])
      && multiset(ix'.queue) == multiset(ix.queue)
  {
    var e := ix.tree[i];
    assert e in multiset(ix.queue);
    UnlinkMultiset(ix.queue, e);
  }

  /** A hit only ever returns the path of an entry whose key bytes match the probe and that has not expired. */
  lemma LookupHitIsLiveMatch(ix: Index, crc: nat, key: string, now: int)
    requires LookupIndex(ix, crc, key, now).0.Some?
    ensures exists e :: e in ix.tree && e.crc == crc && KeyMatches(e.key, key) && e.expire >= now &&
                        LookupIndex(ix, crc, key, now).0 == Some(e.path)
  {
    var i := FirstWithCrc(ix.tree, crc).value;
    assert ix.tree[i] in ix.tree;
  }

  // ---------------------------------------------------------------------
  // Store
  // ---------------------------------------------------------------------

  /** Outcome of writing the encoded bytes after the entry is indexed. */
  datatype FileWrite = OpenFailed | ShortWrite | Written

  /** The entry ngx_http_webp_store_cache builds: keyed by the SHA-1 of the artifact path. */
  function StoredEntry(sha1: string -> Digest, crc32: string -> nat, webpPath: string,
                       now: int, cacheTime: nat, node: nat): (e: Entry)
    ensures e.key == sha1(e.path) && e.crc == crc32(e.key)
    ensures e.path == webpPath && e.node == node && e.expire == now + cacheTime
  {
    var key := sha1(webpPath);
    Entry(node, crc32(key), key, webpPath, now + cacheTime)
  }

  /**
   * Linking a new entry: into the tree and at the head of the queue. No
   * check for an existing key is made. The tree insertion sends an equal
   * CRC to the right of the node it meets, and the model places the entry
   * behind every entry with the same CRC; rebalancing can change which of
   * them the search meets first, which the model does not capture.
   */
  function StoreIndex(ix: Index, e: Entry): (r: Index)
    ensures multiset(r.tree) == multiset(ix.tree) + multiset{e}
    ensures multiset(r.queue) == multiset(ix.queue) + multiset{e}
    ensures r.queue[0] == e && r.queue[1..] == ix.queue
  {
    Index(ix.tree + [e], [e] + ix.queue)
  }

  /** Storing an entry at a fresh slab address keeps the index consistent and adds exactly that entry. */
  lemma StoreKeepsConsistent(ix: Index, e: Entry)
    requires Consistent(ix)
    requires forall x :: x in ix.tree ==> x.node != e.node
    ensures Consistent(StoreIndex(ix, e))
    ensures multiset(StoreIndex(ix, e).tree) == multiset(ix.tree) + multiset{e}
    ensures StoreIndex(ix, e).queue[0] == e
  {
    var t := ix.tree + [e];
    forall i, j | 0 <= i < j < |t|
      ensures t[i].node != t[j].node
    {
      if j == |t| - 1 {
        assert t[i] in ix.tree;
      }
    }
  }

  lemma {:induction false} FirstWithCrcAppend(tree: seq<Entry>, e: Entry, crc: nat)
    decreases |tree|
    ensures FirstWithCrc(tree, crc).Some? ==> FirstWithCrc(tree + [e], crc) == FirstWithCrc(tree, crc)
    ensures FirstWithCrc(tree, crc).None? && e.crc == crc ==> FirstWithCrc(tree + [e], crc) == Some(|tree|)
    ensures FirstWithCrc(tree, crc).None? && e.crc != crc ==> FirstWithCrc(tree + [e], crc).None?
  {
    if tree != [] {
      FirstWithCrcAppend(tree[1..], e, crc);
      assert (tree + [e])[1..] == tree[1..] + [e];
    }
  }

  /**
   * Store then lookup with the key store derived: while no older entry
   * shares the CRC, the entry is found until its expiry second has passed.
   */
  lemma StoreThenLookupHits(ix: Index, e: Entry, now: int)
    requires FirstWithCrc(ix.tree, e.crc).None?
    requires now <= e.expire
    ensures LookupIndex(StoreIndex(ix, e), e.crc, e.key, now).0 == Some(e.path)
  {
    FirstWithCrcAppend(ix.tree, e, e.crc);
    assert (ix.tree + [e])[|ix.tree|] == e;
  }

  /**
   * The time to live of a stored entry: an entry made at `stored`, first
   * with its CRC, is found by its own key at every second up to and
   * including stored + cache_time, and missed (and evicted) after that.
   */
  lemma StoredEntryLivesForCacheTime(ix: Index, sha1: string -> Digest, crc32: string -> nat, webpPath: string,
                                     stored: int, cacheTime: nat, node: nat, now: int)
    requires FirstWithCrc(ix.tree, crc32(sha1(webpPath))).None?
    ensures var e := StoredEntry(sha1, crc32, webpPath, stored, cacheTime, node);
      LookupIndex(StoreIndex(ix, e), e.crc, e.key, now).0 ==
        (if now <= stored + cacheTime then Some(webpPath) else None)
  {
    var e := StoredEntry(sha1, crc32, webpPath, stored, cacheTime, node);
    FirstWithCrcAppend(ix.tree, e, e.crc);
    assert (ix.tree + [e])[|ix.tree|] == e;
    assert KeyMatches(e.key, e.key);
  }

  /**
   * Store keys an entry by the SHA-1 of the artifact path, while the
   * request handler probes with the SHA-1 of the request URI: on any index
   * whose entries were all keyed that way, the handler's lookup misses
   * whenever no entry's path has the digest of the URI.
   */
  lemma HandlerProbeMissesStoredEntry(ix: Index, sha1: string -> Digest, crc32: string -> nat,
                                      unparsedUri: string, now: int)
    requires forall e :: e in ix.tree ==> e.key == sha1(e.path) && sha1(e.path) != sha1(unparsedUri)
    ensures LookupIndex(ix, crc32(sha1(unparsedUri)), sha1(unparsedUri), now).0.None?
  {
    var probe := sha1(unparsedUri);
    if LookupIndex(ix, crc32(probe), probe, now).0.Some? {
      LookupHitIsLiveMatch(ix, crc32(probe), probe, now);
    }
  }

  // ---------------------------------------------------------------------
  // Invalidate
  // ---------------------------------------------------------------------

  /**
   * ngx_http_webp_invalidate_cache on an index value: the HTTP status,
   * the path whose file is then deleted (the path is read before the
   * entry is released), and the index afterwards. `arg` is the
   * `cache_key` request argument, None when absent.
   */
  function InvalidateIndex(ix: Index, crc32: string -> nat, arg: Option<string>): (r: (Option<string>, int, Index))
    ensures r.1 == HTTP_OK || r.1 == HTTP_BAD_REQUEST || r.1 == HTTP_NOT_FOUND
    ensures r.1 == HTTP_BAD_REQUEST <==> arg.None?
    ensures r.1 == HTTP_OK <==> r.0.Some?
    ensures r.1 != HTTP_OK ==> r.2 == ix
    ensures r.1 == HTTP_OK ==> |r.2.tree| + 1 == |ix.tree|
  {
    if arg.None? then (None, HTTP_BAD_REQUEST, ix)
    else match FirstWithCrc(ix.tree, crc32(arg.value))
      case None => (None, HTTP_NOT_FOUND, ix)
      case Some(i) =>
        var e := ix.tree[i];
        if KeyMatches(e.key, arg.value)
        then (Some(e.path), HTTP_OK, Index(RemoveAt(ix.tree, i), Unlink(ix.queue, e)))
        else (None, HTTP_NOT_FOUND, ix)
  }

  /**
   * Invalidate answers 400 without a key, 200 when it unlinks an entry
   * from both structures (reporting that entry's path for deletion), and
   * 404 with nothing changed otherwise.
   */
  lemma InvalidateOutcomes(ix: Index, crc32: string -> nat, arg: Option<string>)
    requires Consistent(ix)
    ensures var (deleted, status, ix') := InvalidateIndex(ix, crc32, arg);
      && Consistent(ix')
      && (status == HTTP_BAD_REQUEST <==> arg.None?)
      && (status == HTTP_OK || status == HTTP_NOT_FOUND || status == HTTP_BAD_REQUEST)
      && (status != HTTP_OK ==> deleted.None? && ix' == ix)
      && (status == HTTP_OK <==>
            arg.Some? &&
            exists i :: 0 <= i < |ix.tree| && FirstWithCrc(ix.tree, crc32(arg.value)) == Some(i) &&
                        KeyMatches(ix.tree[i].key, arg.value))
      && (status == HTTP_OK ==>
            exists e :: e in ix.tree && deleted == Some(e.path) && e !in ix'.tree && e !in ix'.queue &&
                        multiset(ix'.tree) == multiset(ix.tree) - multiset{e})
  {
    var (deleted, status, ix') := InvalidateIndex(ix, crc32, arg);
    if status == HTTP_OK {
      var i := FirstWithCrc(ix.tree, crc32(arg.value)).value;
      var e := ix.tree[i];
      assert e in multiset(ix.queue);
      UnlinkMultiset(ix.queue, e);
      RemoveAtMultiset(ix.tree, i);
      RemoveAtDistinct(ix.tree, i);
      assert e !in multiset(ix'.tree);
      assert e in ix.tree;
    }
  }

  /** An empty `cache_key` compares zero bytes, so it invalidates the first entry carrying the CRC of "". */
  lemma EmptyKeyInvalidatesAnyEntryWithItsCrc(ix: Index, crc32: string -> nat)
    requires exists e :: e in ix.tree && e.crc == crc32("")
    ensures InvalidateIndex(ix, crc32, Some("")).1 == HTTP_OK
  {
    var e :| e in ix.tree && e.crc == crc32("");
    var k :| 0 <= k < |ix.tree| && ix.tree[k] == e;
    assert FirstWithCrc(ix.tree, crc32("")).Some?;
  }

  /** The CRC `c` is carried by at most one entry of the tree. */
  predicate CrcUnique(tree: seq<Entry>, c: nat) {
    forall i, j :: 0 <= i < |tree| && 0 <= j < |tree| && tree[i].crc == c && tree[j].crc == c ==> i == j
  }

  /**
   * After invalidating a key, looking the same key up misses, provided no
   * other entry shares its CRC (the search would otherwise stop there).
   */
  lemma InvalidateThenLookupMisses(ix: Index, crc32: string -> nat, key: Digest, now: int)
    requires CrcUnique(ix.tree, crc32(key))
    ensures LookupIndex(InvalidateIndex(ix, crc32, Some(key)).2, crc32(key), key, now).0.None?
  {
    var c := crc32(key);
    var f := FirstWithCrc(ix.tree, c);
    if f.Some? && KeyMatches(ix.tree[f.value].key, key) {
      var i := f.value;
      var t := RemoveAt(ix.tree, i);
      forall k | 0 <= k < |t|
        ensures t[k].crc != c
      {
        if k < i {
          assert t[k] == ix.tree[k];
        } else {
          assert t[k] == ix.tree[k + 1];
        }
      }
    }
  }

  /**
   * Store never looks for an existing key: storing the same artifact path
   * twice links two entries, and invalidating the key removes only one of
   * them (in the model's insertion order, the first), so a later lookup
   * still finds the other.
   */
  lemma DuplicateStoreSurvivesInvalidate(ix: Index, e1: Entry, e2: Entry, crc32: string -> nat, now: int)
    requires FirstWithCrc(ix.tree, e1.crc).None?
    requires e1.key == e2.key && e1.crc == e2.crc == crc32(e1.key)
    requires now <= e2.expire
    ensures var ix2 := StoreIndex(StoreIndex(ix, e1), e2);
      var (deleted, status, ix3) := InvalidateIndex(ix2, crc32, Some(e1.key));
      && status == HTTP_OK && deleted == Some(e1.path)
      && LookupIndex(ix3, e1.crc, e1.key, now).0 == Some(e2.path)
  {
    var ix1 := StoreIndex(ix, e1);
    var ix2 := StoreIndex(ix1, e2);
    var n := |ix.tree|;
    FirstWithCrcAppend(ix.tree, e1, e1.crc);
    FirstWithCrcAppend(ix1.tree, e2, e1.crc);
    assert ix2.tree == ix.tree + [e1, e2];
    assert FirstWithCrc(ix2.tree, e1.crc) == Some(n) && ix2.tree[n] == e1;
    assert KeyMatches(e1.key, e1.key);
    var t3 := RemoveAt(ix2.tree, n);
    assert t3 == ix.tree + [e2];
    var ix3 := Index(t3, Unlink(ix2.queue, e1));
    assert InvalidateIndex(ix2, crc32, Some(e1.key)) == (Some(e1.path), HTTP_OK, ix3);
    FirstWithCrcAppend(ix.tree, e2, e1.crc);
    assert FirstWithCrc(t3, e1.crc) == Some(n) && t3[n] == e2;
    assert LookupIndex(ix3, e1.crc, e1.key, now).0 == Some(e2.path);
  }

  // ---------------------------------------------------------------------
  // The shared context object
  // ---------------------------------------------------------------------

  /**
   * ngx_http_webp_shm_ctx_t as it lives in the shared zone: the tree and
   * the queue, updated in place by the three operations.
   */
  class ShmCtx {
    var tree: seq<Entry>
    var queue: seq<Entry>

    function Snapshot(): Index
      reads this
    {
      Index(tree, queue)
    }

    predicate Valid()
      reads this
    {
      Consistent(Snapshot())
    }

    /** ngx_rbtree_init and ngx_queue_init: an empty tree and an empty queue. */
    constructor ()
      ensures Valid() && Snapshot() == Index([], [])
    {
      tree, queue := [], [];
    }

    /** The `while (node != sentinel)` descent: stops at the first node whose key equals `crc`. */
    method FindByCrc(crc: nat) returns (found: Option<nat>)
      ensures found.Some? ==> found.value < |tree| && tree[found.value].crc == crc
      ensures found.Some? ==> forall j :: 0 <= j < found.value ==> tree[j].crc != crc
      ensures found.None? <==> forall j :: 0 <= j < |tree| ==> tree[j].crc != crc
    {
      var i := 0;
      while i < |tree|
        invariant 0 <= i <= |tree|
        invariant forall j :: 0 <= j < i ==> tree[j].crc != crc
      {
        if tree[i].crc == crc {
          return Some(i);
        }
        i := i + 1;
      }
      return None;
    }

    /** ngx_http_webp_lookup_cache: `now` is ngx_time(); None stands for NGX_DECLINED. */
    method Lookup(crc32: string -> nat, key: Digest, now: int) returns (path: Option<string>)
      requires Valid()
      modifies this
      ensures Valid()
      ensures (path, Snapshot()) == LookupIndex(old(Snapshot()), crc32(key), key, now)
    {
      LookupKeepsConsistent(Snapshot(), crc32(key), key, now);
      var hash := crc32(key);
      var found := FindByCrc(hash);
      assert found == FirstWithCrc(tree, hash);
      if found.Some? {
        var e := tree[found.value];
        if KeyMatches(e.key, key) {
          if e.expire < now {
            queue := Unlink(queue, e);
            tree := RemoveAt(tree, found.value);
            return None;
          }
          queue := [e] + Unlink(queue, e);
          return Some(e.path);
        }
      }
      return None;
    }

    /**
     * ngx_http_webp_store_cache: `slot` is the slab allocation (None when
     * the zone is full), `write` the outcome of writing the file after the
     * entry has been linked. A failed open or short write returns
     * NGX_ERROR but leaves the entry indexed.
     */
    method Store(sha1: string -> Digest, crc32: string -> nat, webpPath: string, now: int,
                 cacheTime: nat, slot: Option<nat>, write: FileWrite) returns (rc: int)
      requires Valid()
      requires slot.Some? ==> forall x :: x in tree ==> x.node != slot.value
      modifies this
      ensures Valid()
      ensures slot.None? ==> rc == NGX_ERROR && Snapshot() == old(Snapshot())
      ensures slot.Some? ==>
        && Snapshot() == StoreIndex(old(Snapshot()), StoredEntry(sha1, crc32, webpPath, now, cacheTime, slot.value))
        && (rc == NGX_OK <==> write == Written)
        && (rc == NGX_OK || rc == NGX_ERROR)
    {
      var key := sha1(webpPath);
      if slot.None? {
        return NGX_ERROR;
      }
      var e := Entry(slot.value, crc32(key), key, webpPath, now + cacheTime);
      StoreKeepsConsistent(Snapshot(), e);
      tree := tree + [e];
      queue := [e] + queue;
      if write != Written {
        return NGX_ERROR;
      }
      return NGX_OK;
    }

    /**
     * ngx_http_webp_invalidate_cache: `arg` is the `cache_key` argument;
     * `deleted` is the path handed to ngx_delete_file.
     */
    method Invalidate(crc32: string -> nat, arg: Option<string>) returns (deleted: Option<string>, status: int)
      requires Valid()
      modifies this
      ensures Valid()
      ensures (deleted, status, Snapshot()) == InvalidateIndex(old(Snapshot()), crc32, arg)
    {
      InvalidateOutcomes(Snapshot(), crc32, arg);
      if arg.None? {
        return None, HTTP_BAD_REQUEST;
      }
      var hash := crc32(arg.value);
      var found := FindByCrc(hash);
      assert found == FirstWithCrc(tree, hash);
      if found.Some? {
        var e := tree[found.value];
        if KeyMatches(e.key, arg.value) {
          var path := e.path;
          queue := Unlink(queue, e);
          tree := RemoveAt(tree, found.value);
          return Some(path), HTTP_OK;
        }
      }
      return None, HTTP_NOT_FOUND;
    }
  }
}
