/** The process-wide Git tree cache of fetchSourceFromGithub
    (functions/index.js:170-197): `{ files, timestamp }`, starting as
    `{ files: null, timestamp: 0 }`, with a time to live of five minutes. The clock
    and the answer of the two tree requests (getRef, then a recursive getTree) are
    parameters. */
module GitTree {
  import opened Text

  /** 5 * 60 * 1000 milliseconds. */
  const TreeCacheTtl: int := 5 * 60 * 1000

  /** One entry of a recursive tree listing: its path and its type ("blob" for a file). */
  datatype TreeEntry = TreeEntry(path: string, kind: string)

  datatype CacheState = CacheState(files: Option<seq<string>>, timestamp: int)

  /** What one getTreeFiles call gives back, whether it went to the network, and
      the cache it leaves. */
  datatype Lookup = Lookup(files: Result<seq<string>>, fetched: bool, next: CacheState)

  /** tree.tree.filter((t) => t.type === "blob").map((t) => t.path) */
  function BlobPaths(tree: seq<TreeEntry>): (r: seq<string>)
    ensures |r| <= |tree|
  {
    if tree == [] then []
    else (if tree[0].kind == "blob" then [tree[0].path] else []) + BlobPaths(tree[1..])
  }

  /** The filter-and-map works entry by entry: the paths of a concatenation are the
      paths of its parts, in tree order. */
  lemma {:induction false} BlobPathsAppend(a: seq<TreeEntry>, b: seq<TreeEntry>)
    ensures BlobPaths(a + b) == BlobPaths(a) + BlobPaths(b)
    decreases |a|
  {
    if a == [] {
      assert a + b == b;
    } else {
      assert (a + b)[0] == a[0];
      assert (a + b)[1..] == a[1..] + b;
      BlobPathsAppend(a[1..], b);
      var head := if a[0].kind == "blob" then [a[0].path] else [];
      assert BlobPaths(a + b) == head + BlobPaths(a[1..] + b);
      assert BlobPaths(a) == head + BlobPaths(a[1..]);
    }
  }

  /** One entry gives its path when it is a blob, and nothing otherwise. */
  lemma {:induction false} BlobPathsOne(e: TreeEntry)
    ensures BlobPaths([e]) == if e.kind == "blob" then [e.path] else []
  {
    assert [e][1..] == [];
  }

  /** `treeCache.files && (now - treeCache.timestamp) < TREE_CACHE_TTL`: an array,
      even an empty one, is truthy. */
  predicate Fresh(st: CacheState, now: int) {
    st.files.Some? && now - st.timestamp < TreeCacheTtl
  }

  /** getTreeFiles as a function of the cache, the clock and the tree answer. A
      failing request throws before the cache is written. */
  function GetTreeFilesSpec(st: CacheState, now: int, listing: Result<seq<TreeEntry>>): (r: Lookup)
    ensures r.fetched <==> !Fresh(st, now)
    ensures !r.fetched ==> r.files == Ok(st.files.value) && r.next == st
    ensures r.fetched && listing.Ok? ==>
      r.files == Ok(BlobPaths(listing.value)) && r.next == CacheState(Some(BlobPaths(listing.value)), now)
    ensures r.fetched && listing.Err? ==> r.files.Err? && r.next == st
  {
    if Fresh(st, now) then Lookup(Ok(st.files.value), false, st)
    else
      match listing
      case Err(msg) => Lookup(Err(msg), true, st)
      case Ok(tree) =>
        var paths := BlobPaths(tree);
        Lookup(Ok(paths), true, CacheState(Some(paths), now))
  }

  /** A path is listed exactly when the tree has a blob entry with that path. */
  lemma {:induction false} BlobPathsMembers(tree: seq<TreeEntry>, p: string)
    ensures p in BlobPaths(tree) <==> exists k :: 0 <= k < |tree| && tree[k].kind == "blob" && tree[k].path == p
  {
    if tree != [] {
      BlobPathsMembers(tree[1..], p);
      assert BlobPaths(tree) == (if tree[0].kind == "blob" then [tree[0].path] else []) + BlobPaths(tree[1..]);
      if exists k :: 0 <= k < |tree[1..]| && tree[1..][k].kind == "blob" && tree[1..][k].path == p {
        var k :| 0 <= k < |tree[1..]| && tree[1..][k].kind == "blob" && tree[1..][k].path == p;
        assert tree[k + 1] == tree[1..][k];
      }
      if exists k :: 0 <= k < |tree| && tree[k].kind == "blob" && tree[k].path == p {
        var k :| 0 <= k < |tree| && tree[k].kind == "blob" && tree[k].path == p;
        if k > 0 {
          assert tree[1..][k - 1] == tree[k];
        }
      }
    }
  }

  /** After a successful fetch at `t0`, a call at any `t1` less than five minutes
      later is served from the cache, with the same files, whatever the network
      would have said. */
  lemma {:induction false} ReuseWithinTtl(st: CacheState, t0: int, tree: seq<TreeEntry>, t1: int, listing: Result<seq<TreeEntry>>)
    requires !Fresh(st, t0)
    requires t1 - t0 < TreeCacheTtl
    ensures var first := GetTreeFilesSpec(st, t0, Ok(tree));
      var second := GetTreeFilesSpec(first.next, t1, listing);
      !second.fetched && second.files == first.files && second.next == first.next
  {
  }

  /** Once five minutes have passed since the last fetch, the next call fetches again. */
  lemma {:induction false} ExpiresAfterTtl(st: CacheState, now: int, listing: Result<seq<TreeEntry>>)
    requires st.files.None? || now - st.timestamp >= TreeCacheTtl
    ensures GetTreeFilesSpec(st, now, listing).fetched
  {
  }

  /** The cache object: one per process, shared by every invocation. */
  class TreeCache {
    var files: Option<seq<string>>
    var timestamp: int

    /** `let treeCache = { files: null, timestamp: 0 }` */
    constructor ()
      ensures files == None && timestamp == 0
    {
      files := None;
      timestamp := 0;
    }

    function State(): CacheState
      reads this
    {
      CacheState(files, timestamp)
    }

    /** getTreeFiles: serve the cached paths while they are fresh, otherwise fetch
        the tree and remember its blob paths and the time. */
    method GetTreeFiles(now: int, listing: Result<seq<TreeEntry>>) returns (r: Result<seq<string>>)
      modifies this
      ensures r == GetTreeFilesSpec(old(State()), now, listing).files
      ensures State() == GetTreeFilesSpec(old(State()), now, listing).next
    {
      if files.Some? && now - timestamp < TreeCacheTtl {
        return Ok(files.value);
      }
      if listing.Err? {
        return Err(listing.message);
      }
      files := Some(BlobPaths(listing.value));
      timestamp := now;
      r := Ok(files.value);
    }
  }
}
