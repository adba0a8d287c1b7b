/** The event loop of the agent: decode a record, resolve its cgroup through the path cache, count it and
    report it. */
module EventAgent {
  import opened Wrappers
  import opened Text
  import EventWire
  import CgroupPaths

  // ---- The cgroup tree -----------------------------------------------------

  type Ino = nat

  /** A cgroup directory as a walk sees it; `statOk` is false when its inode cannot be read. */
  datatype Dir = Dir(name: string, ino: Ino, statOk: bool, children: seq<Dir>)

  datatype Entry = Entry(ino: Ino, path: string)

  /** What a walk meets, parents first. */
  function Walk(path: string, d: Dir): seq<Entry>
    decreases d, 1
  {
    (if d.statOk then [Entry(d.ino, path)] else []) + WalkAll(path, d, 0)
  }

  function WalkAll(path: string, d: Dir, k: nat): seq<Entry>
    requires k <= |d.children|
    decreases d, 0, |d.children| - k
  {
    if k == |d.children| then []
    else Walk(path + "/" + d.children[k].name, d.children[k]) + WalkAll(path, d, k + 1)
  }

  /** The directory reached by taking these children in turn. */
  function Sub(d: Dir, route: seq<nat>): Option<Dir> {
    if route == [] then Some(d)
    else if route[0] < |d.children| then Sub(d.children[route[0]], route[1..])
    else None
  }

  function PathTo(path: string, d: Dir, route: seq<nat>): string
    decreases |route|
  {
    if route == [] || |d.children| <= route[0] then path
    else PathTo(path + "/" + d.children[route[0]].name, d.children[route[0]], route[1..])
  }

  /** `e` is the inode and the path of a directory of the tree. */
  ghost predicate Reached(path: string, d: Dir, route: seq<nat>, e: Entry) {
    var sub := Sub(d, route);
    sub.Some? && sub.value.statOk && e == Entry(sub.value.ino, PathTo(path, d, route))
  }

  lemma {:induction false} WalkSound(path: string, d: Dir, e: Entry) returns (route: seq<nat>)
    requires e in Walk(path, d)
    ensures Reached(path, d, route, e)
    decreases d, 1
  {
    if d.statOk && e == Entry(d.ino, path) {
      route := [];
    } else {
      route := WalkAllSound(path, d, 0, e);
    }
  }

  lemma {:induction false} WalkAllSound(path: string, d: Dir, k: nat, e: Entry) returns (route: seq<nat>)
    requires k <= |d.children| && e in WalkAll(path, d, k)
    ensures Reached(path, d, route, e)
    decreases d, 0, |d.children| - k
  {
    var below := path + "/" + d.children[k].name;
    if e in Walk(below, d.children[k]) {
      var rest := WalkSound(below, d.children[k], e);
      route := [k] + rest;
      assert route[1..] == rest;
    } else {
      route := WalkAllSound(path, d, k + 1, e);
    }
  }

  lemma {:induction false} ChildWalked(path: string, d: Dir, k: nat, i: nat, e: Entry)
    requires k <= i < |d.children| && e in Walk(path + "/" + d.children[i].name, d.children[i])
    ensures e in WalkAll(path, d, k)
    decreases i - k
  {
    if k < i {
      ChildWalked(path, d, k + 1, i, e);
    }
  }

  lemma {:induction false} WalkComplete(path: string, d: Dir, route: seq<nat>, e: Entry)
    requires Reached(path, d, route, e)
    ensures e in Walk(path, d)
    decreases |route|
  {
    if route != [] {
      var child := d.children[route[0]];
      WalkComplete(path + "/" + child.name, child, route[1..], e);
      ChildWalked(path, d, 0, route[0], e);
    }
  }

  /** A walk meets exactly the directories of the tree whose inodes can be read, each under its path. */
  lemma WalkIsTree(path: string, d: Dir, e: Entry)
    ensures e in Walk(path, d) <==> exists route :: Reached(path, d, route, e)
  {
    if e in Walk(path, d) {
      var route := WalkSound(path, d, e);
    }
    if route :| Reached(path, d, route, e) {
      WalkComplete(path, d, route, e);
    }
  }

  /** The table a walk fills, starting from an empty one. */
  function Table(entries: seq<Entry>): map<Ino, string> {
    if entries == [] then map[]
    else Table(entries[..|entries| - 1])[entries[|entries| - 1].ino := entries[|entries| - 1].path]
  }

  function Get(table: map<Ino, string>, cgid: Ino): Option<string> {
    if cgid in table then Some(table[cgid]) else None
  }

  /** With one path per inode, the table gives an inode exactly the path it was met under. */
  lemma {:induction false} TableIsEntries(entries: seq<Entry>, i: Ino, path: string)
    requires forall e, f :: e in entries && f in entries && e.ino == f.ino ==> e.path == f.path
    ensures Get(Table(entries), i) == Some(path) <==> Entry(i, path) in entries
    decreases |entries|
  {
    if entries != [] {
      var n := |entries| - 1;
      assert entries == entries[..n] + [entries[n]];
      TableIsEntries(entries[..n], i, path);
      if entries[n].ino == i {
        assert entries[n] in entries;
      }
    }
  }

  lemma TableStep(base: map<Ino, string>, entries: seq<Entry>, i: nat)
    requires i < |entries|
    ensures base + Table(entries[..i + 1]) == (base + Table(entries[..i]))[entries[i].ino := entries[i].path]
  {
    assert entries[..i + 1][..i] == entries[..i];
  }

  class PathCache {
    var byIno: map<Ino, string>

    constructor (root: string, tree: Dir)
      ensures byIno == Table(Walk(root, tree))
    {
      byIno := map[];
      new;
      Refresh(root, tree);
    }

    method Refresh(root: string, tree: Dir)
      modifies this
      ensures byIno == old(byIno) + Table(Walk(root, tree))
    {
      var entries := Walk(root, tree);
      for i := 0 to |entries|
        invariant byIno == old(byIno) + Table(entries[..i])
      {
        TableStep(old(byIno), entries, i);
        byIno := byIno[entries[i].ino := entries[i].path];
      }
      assert entries[..|entries|] == entries;
    }

    method Lookup(cgid: Ino) returns (path: Option<string>)
      ensures path == Get(byIno, cgid)
    {
      path := if cgid in byIno then Some(byIno[cgid]) else None;
    }
  }

  // ---- One record ----------------------------------------------------------

  datatype Post = Post(containerId: string, timestamp: nat)

  /** What the ring buffer returns, and the tree a walk would see at that moment. */
  datatype Input = Record(raw: seq<Byte>, tree: Dir) | ReadError

  datatype State = State(cache: map<Ino, string>, counts: map<string, nat>, total: nat, posts: seq<Post>)

  /** The cache after the lookup of one cgroup id: walked again on a miss only. */
  function Consulted(cache: map<Ino, string>, cgid: Ino, root: string, tree: Dir): map<Ino, string> {
    if cgid in cache then cache else cache + Table(Walk(root, tree))
  }

  function Count(counts: map<string, nat>, id: string): nat {
    if id in counts then counts[id] else 0
  }

  /** The container an input is charged to. */
  function Charged(cache: map<Ino, string>, input: Input, root: string): Option<Post> {
    if input.ReadError? || EventWire.Decode(input.raw).None? then None
    else
      var ev := EventWire.Decode(input.raw).value;
      var path := Get(Consulted(cache, ev.cgid, root, input.tree), ev.cgid);
      if path.None? then None
      else
        var id := CgroupPaths.ExtractContainerID(path.value);
        if id.None? then None else Some(Post(id.value, ev.ts))
  }

  function Handle(s: State, input: Input, root: string): State {
    if input.ReadError? || EventWire.Decode(input.raw).None? then s
    else
      var cache := Consulted(s.cache, EventWire.Decode(input.raw).value.cgid, root, input.tree);
      match Charged(s.cache, input, root)
      case None => s.(cache := cache)
      case Some(p) =>
        State(cache, s.counts[p.containerId := Count(s.counts, p.containerId) + 1], s.total + 1, s.posts + [p])
  }

  function After(first: Dir, inputs: seq<Input>, root: string): State {
    if inputs == [] then State(Table(Walk(root, first)), map[], 0, [])
    else Handle(After(first, inputs[..|inputs| - 1], root), inputs[|inputs| - 1], root)
  }

  lemma AfterStep(first: Dir, inputs: seq<Input>, next: Input, root: string)
    ensures After(first, inputs + [next], root) == Handle(After(first, inputs, root), next, root)
  {
    assert (inputs + [next])[..|inputs|] == inputs;
  }

  /** The loop, until the ring buffer is closed behind the last input. */
  method EventLoop(first: Dir, inputs: seq<Input>, root: string)
    returns (overrunCount: map<string, nat>, totalCnt: nat, posts: seq<Post>)
    ensures var s := After(first, inputs, root);
            overrunCount == s.counts && totalCnt == s.total && posts == s.posts
  {
    var pc := new PathCache(root, first);
    overrunCount, totalCnt, posts := map[], 0, [];
    for i := 0 to |inputs|
      invariant State(pc.byIno, overrunCount, totalCnt, posts) == After(first, inputs[..i], root)
      invariant fresh(pc)
    {
      assert inputs[..i + 1][..i] == inputs[..i];
      var rec := inputs[i];
      if rec.ReadError? {
        continue;
      }
      var ev := EventWire.Decode(rec.raw);
      if ev.None? {
        continue;
      }
      var path := pc.Lookup(ev.value.cgid);
      if path.None? {
        pc.Refresh(root, rec.tree);
        path := pc.Lookup(ev.value.cgid);
        if path.None? {
          continue;
        }
      }
      var cid := CgroupPaths.ExtractContainerID(path.value);
      if cid.None? {
        continue;
      }
      overrunCount := overrunCount[cid.value := Count(overrunCount, cid.value) + 1];
      totalCnt := totalCnt + 1;
      posts := posts + [Post(cid.value, ev.value.ts)];
    }
    assert inputs[..|inputs|] == inputs;
  }

  // ---- Conservation --------------------------------------------------------

  function CountIn(posts: seq<Post>, id: string): nat {
    if posts == [] then 0
    else CountIn(posts[..|posts| - 1], id) + if posts[|posts| - 1].containerId == id then 1 else 0
  }

  ghost function Sum(counts: map<string, nat>): nat
    decreases |counts|
  {
    if counts == map[] then 0
    else
      var id :| id in counts;
      counts[id] + Sum(counts - {id})
  }

  lemma {:induction false} SumSplit(counts: map<string, nat>, id: string)
    requires id in counts
    ensures Sum(counts) == counts[id] + Sum(counts - {id})
    decreases |counts|
  {
    var first :| first in counts && Sum(counts) == counts[first] + Sum(counts - {first});
    if first != id {
      SumSplit(counts - {first}, id);
      SumSplit(counts - {id}, first);
      assert counts - {first} - {id} == counts - {id} - {first};
    }
  }

  lemma SumIncrement(counts: map<string, nat>, id: string)
    ensures Sum(counts[id := Count(counts, id) + 1]) == Sum(counts) + 1
  {
    var more := counts[id := Count(counts, id) + 1];
    SumSplit(more, id);
    if id in counts {
      SumSplit(counts, id);
      assert more - {id} == counts - {id};
    } else {
      assert more - {id} == counts;
    }
  }

  ghost predicate Conserved(s: State) {
    && s.total == Sum(s.counts) == |s.posts|
    && forall id :: Count(s.counts, id) == CountIn(s.posts, id)
  }

  lemma CountStep(counts: map<string, nat>, posts: seq<Post>, p: Post)
    requires forall id :: Count(counts, id) == CountIn(posts, id)
    ensures forall id ::
              Count(counts[p.containerId := Count(counts, p.containerId) + 1], id) == CountIn(posts + [p], id)
  {
    assert (posts + [p])[..|posts|] == posts;
  }

  lemma HandleConserves(s: State, input: Input, root: string)
    requires Conserved(s)
    ensures Conserved(Handle(s, input, root))
  {
    var charged := Charged(s.cache, input, root);
    if charged.Some? {
      SumIncrement(s.counts, charged.value.containerId);
      CountStep(s.counts, s.posts, charged.value);
    }
  }

  /** The counters tell exactly what was reported: each container's count is the number of its posts, and the
      total is the sum over all containers and the number of all posts. */
  lemma {:induction false} CountersConserve(first: Dir, inputs: seq<Input>, root: string)
    ensures var s := After(first, inputs, root);
            && s.total == Sum(s.counts) == |s.posts|
            && forall id :: Count(s.counts, id) == CountIn(s.posts, id)
    decreases |inputs|
  {
    if inputs != [] {
      var n := |inputs| - 1;
      CountersConserve(first, inputs[..n], root);
      HandleConserves(After(first, inputs[..n], root), inputs[n], root);
    }
  }

  // ---- The cache agrees with a fresh walk ----------------------------------

  /** Both trees give every inode they share the same path. */
  ghost predicate Agree(a: map<Ino, string>, b: map<Ino, string>) {
    forall i :: i in a && i in b ==> a[i] == b[i]
  }

  /** The table of the `k`-th tree; the one walked at start-up is number 0. Inputs without a tree repeat it. */
  function TreeTable(first: Dir, inputs: seq<Input>, root: string, k: nat): map<Ino, string>
    requires k <= |inputs|
  {
    if k == 0 || inputs[k - 1].ReadError? then Table(Walk(root, first)) else Table(Walk(root, inputs[k - 1].tree))
  }

  /** No inode is ever given to a different path, over the whole history. */
  ghost predicate StableNames(first: Dir, inputs: seq<Input>, root: string) {
    forall i, k :: 0 <= i <= |inputs| && 0 <= k <= |inputs| ==>
      Agree(TreeTable(first, inputs, root, i), TreeTable(first, inputs, root, k))
  }

  /** Some tree of the history has the inode under this path. */
  ghost predicate InHistory(first: Dir, inputs: seq<Input>, root: string, i: Ino, path: string) {
    exists k :: 0 <= k <= |inputs| && Get(TreeTable(first, inputs, root, k), i) == Some(path)
  }

  lemma InHistoryExtend(first: Dir, inputs: seq<Input>, next: Input, root: string, i: Ino, path: string)
    requires InHistory(first, inputs, root, i, path)
    ensures InHistory(first, inputs + [next], root, i, path)
  {
    var k :| 0 <= k <= |inputs| && Get(TreeTable(first, inputs, root, k), i) == Some(path);
    assert TreeTable(first, inputs + [next], root, k) == TreeTable(first, inputs, root, k);
  }

  /** Everything cached comes from some tree of the history. */
  lemma {:induction false} CacheFromHistory(first: Dir, inputs: seq<Input>, root: string, i: Ino)
    requires i in After(first, inputs, root).cache
    ensures InHistory(first, inputs, root, i, After(first, inputs, root).cache[i])
    decreases |inputs|
  {
    var cache := After(first, inputs, root).cache;
    if inputs == [] {
      assert cache == TreeTable(first, inputs, root, 0);
    } else {
      var n := |inputs| - 1;
      var init, next := inputs[..n], inputs[n];
      assert inputs == init + [next];
      var before := After(first, init, root).cache;
      if i in before && cache[i] == before[i] {
        CacheFromHistory(first, init, root, i);
        InHistoryExtend(first, init, next, root, i, before[i]);
      } else {
        assert cache == before + TreeTable(first, inputs, root, n + 1);
        assert Get(TreeTable(first, inputs, root, n + 1), i) == Some(cache[i]);
      }
    }
  }

  /** If inodes are never reused or renamed, every cgroup that exists when its event is handled resolves to
      the path a fresh walk gives it, although the cache was filled by walks of older trees. */
  lemma CacheAgreesWithWalk(first: Dir, inputs: seq<Input>, next: Input, root: string, cgid: Ino)
    requires next.Record? && StableNames(first, inputs + [next], root)
    requires cgid in Table(Walk(root, next.tree))
    ensures var cache := Consulted(After(first, inputs, root).cache, cgid, root, next.tree);
            Get(cache, cgid) == Some(Table(Walk(root, next.tree))[cgid])
  {
    var cache := After(first, inputs, root).cache;
    if cgid in cache {
      CacheFromHistory(first, inputs, root, cgid);
      InHistoryExtend(first, inputs, next, root, cgid, cache[cgid]);
      var all := inputs + [next];
      var k :| 0 <= k <= |all| && Get(TreeTable(first, all, root, k), cgid) == Some(cache[cgid]);
      assert Agree(TreeTable(first, all, root, k), TreeTable(first, all, root, |all|));
    }
  }

  /** One post more, counted for its container. */
  ghost predicate PostedOnto(s: State, t: State, p: Post) {
    && t.posts == s.posts + [p]
    && t.total == s.total + 1
    && t.counts == s.counts[p.containerId := Count(s.counts, p.containerId) + 1]
  }

  lemma HandlePosts(s: State, input: Input, root: string, p: Post)
    requires Charged(s.cache, input, root) == Some(p)
    ensures PostedOnto(s, Handle(s, input, root), p)
  {}

  /** So its event is posted for the container its path names. */
  lemma LiveIsPosted(first: Dir, inputs: seq<Input>, next: Input, root: string, ev: EventWire.Event, id: string)
    requires next.Record? && EventWire.Decode(next.raw) == Some(ev) && StableNames(first, inputs + [next], root)
    requires ev.cgid in Table(Walk(root, next.tree))
    requires CgroupPaths.ExtractContainerID(Table(Walk(root, next.tree))[ev.cgid]) == Some(id)
    ensures PostedOnto(After(first, inputs, root), After(first, inputs + [next], root), Post(id, ev.ts))
  {
    CacheAgreesWithWalk(first, inputs, next, root, ev.cgid);
    HandlePosts(After(first, inputs, root), next, root, Post(id, ev.ts));
    AfterStep(first, inputs, next, root);
  }

  /** In terms of the tree: a directory that is there when its event is handled resolves to its own path. */
  lemma LiveCgroupResolves(first: Dir, inputs: seq<Input>, next: Input, root: string, route: seq<nat>, e: Entry)
    requires next.Record? && StableNames(first, inputs + [next], root)
    requires forall a, b :: a in Walk(root, next.tree) && b in Walk(root, next.tree) && a.ino == b.ino ==>
               a.path == b.path
    requires Reached(root, next.tree, route, e)
    ensures var cache := Consulted(After(first, inputs, root).cache, e.ino, root, next.tree);
            Get(cache, e.ino) == Some(PathTo(root, next.tree, route))
  {
    WalkComplete(root, next.tree, route, e);
    TableIsEntries(Walk(root, next.tree), e.ino, e.path);
    CacheAgreesWithWalk(first, inputs, next, root, e.ino);
  }

  lemma StablePrefix(first: Dir, inputs: seq<Input>, next: Input, root: string)
    requires StableNames(first, inputs + [next], root)
    ensures StableNames(first, inputs, root)
  {
    var all := inputs + [next];
    forall i, k | 0 <= i <= |inputs| && 0 <= k <= |inputs|
      ensures Agree(TreeTable(first, inputs, root, i), TreeTable(first, inputs, root, k))
    {
      assert TreeTable(first, all, root, i) == TreeTable(first, inputs, root, i);
      assert TreeTable(first, all, root, k) == TreeTable(first, inputs, root, k);
      assert Agree(TreeTable(first, all, root, i), TreeTable(first, all, root, k));
    }
  }

  lemma HandleKeepsPath(first: Dir, inputs: seq<Input>, next: Input, root: string, i: Ino)
    requires StableNames(first, inputs + [next], root) && i in After(first, inputs, root).cache
    ensures Get(After(first, inputs + [next], root).cache, i) == Some(After(first, inputs, root).cache[i])
  {
    var cache := After(first, inputs, root).cache;
    AfterStep(first, inputs, next, root);
    if next.Record? && i in Table(Walk(root, next.tree)) {
      CacheFromHistory(first, inputs, root, i);
      InHistoryExtend(first, inputs, next, root, i, cache[i]);
      var all := inputs + [next];
      var k :| 0 <= k <= |all| && Get(TreeTable(first, all, root, k), i) == Some(cache[i]);
      assert Agree(TreeTable(first, all, root, k), TreeTable(first, all, root, |all|));
    }
  }

  /** What was cached once stays cached under the same path, after the cgroup is gone too. */
  lemma {:induction false} CachedForGood(first: Dir, inputs: seq<Input>, more: seq<Input>, root: string, i: Ino)
    requires StableNames(first, inputs + more, root) && i in After(first, inputs, root).cache
    ensures Get(After(first, inputs + more, root).cache, i) == Some(After(first, inputs, root).cache[i])
    decreases |more|
  {
    if more == [] {
      assert inputs + more == inputs;
    } else {
      var n := |more| - 1;
      assert inputs + more == (inputs + more[..n]) + [more[n]];
      StablePrefix(first, inputs + more[..n], more[n], root);
      CachedForGood(first, inputs, more[..n], root, i);
      HandleKeepsPath(first, inputs + more[..n], more[n], root, i);
    }
  }

  /** A miss leaves every directory of the tree cached. */
  lemma MissCachesTree(first: Dir, inputs: seq<Input>, miss: Input, more: seq<Input>, root: string, i: Ino)
    requires miss.Record? && EventWire.Decode(miss.raw).Some?
    requires EventWire.Decode(miss.raw).value.cgid !in After(first, inputs, root).cache
    requires StableNames(first, inputs + [miss] + more, root) && i in Table(Walk(root, miss.tree))
    ensures Get(After(first, inputs + [miss] + more, root).cache, i) == Some(Table(Walk(root, miss.tree))[i])
  {
    AfterStep(first, inputs, miss, root);
    CachedForGood(first, inputs + [miss], more, root, i);
  }

  // ---- Which records are posted --------------------------------------------

  /** The `k`-th tree was walked: the first one at start-up, a later one because its record missed the cache. */
  ghost predicate Walked(first: Dir, inputs: seq<Input>, root: string, k: nat)
    requires k <= |inputs|
  {
    k == 0 ||
    (&& inputs[k - 1].Record? && EventWire.Decode(inputs[k - 1].raw).Some?
     && EventWire.Decode(inputs[k - 1].raw).value.cgid !in After(first, inputs[..k - 1], root).cache)
  }

  /** Some walk so far met the inode under this path. */
  ghost predicate Met(first: Dir, inputs: seq<Input>, root: string, i: Ino, path: string) {
    exists k :: 0 <= k <= |inputs| && Walked(first, inputs, root, k) &&
                Get(TreeTable(first, inputs, root, k), i) == Some(path)
  }

  lemma WalkedExtend(first: Dir, inputs: seq<Input>, next: Input, root: string, k: nat)
    requires k <= |inputs|
    ensures Walked(first, inputs + [next], root, k) <==> Walked(first, inputs, root, k)
    ensures TreeTable(first, inputs + [next], root, k) == TreeTable(first, inputs, root, k)
  {
    if k != 0 {
      assert (inputs + [next])[..k - 1] == inputs[..k - 1];
    }
  }

  lemma MetExtend(first: Dir, inputs: seq<Input>, next: Input, root: string, i: Ino, path: string)
    ensures var all, n := inputs + [next], |inputs| + 1;
            Met(first, all, root, i, path) <==>
            || Met(first, inputs, root, i, path)
            || (Walked(first, all, root, n) && Get(TreeTable(first, all, root, n), i) == Some(path))
  {
    forall k | 0 <= k <= |inputs|
      ensures Walked(first, inputs + [next], root, k) <==> Walked(first, inputs, root, k)
      ensures TreeTable(first, inputs + [next], root, k) == TreeTable(first, inputs, root, k)
    {
      WalkedExtend(first, inputs, next, root, k);
    }
    if k :| 0 <= k <= |inputs| && Walked(first, inputs, root, k) &&
            Get(TreeTable(first, inputs, root, k), i) == Some(path) {
      assert Walked(first, inputs + [next], root, k);
    }
  }

  lemma CacheStep(first: Dir, inputs: seq<Input>, next: Input, root: string)
    ensures var all, n := inputs + [next], |inputs| + 1;
            After(first, all, root).cache ==
            if Walked(first, all, root, n) then After(first, inputs, root).cache + TreeTable(first, all, root, n)
            else After(first, inputs, root).cache
  {
    AfterStep(first, inputs, next, root);
    assert (inputs + [next])[..|inputs|] == inputs;
  }

  lemma MetIsStable(first: Dir, inputs: seq<Input>, next: Input, root: string, i: Ino, path: string)
    requires StableNames(first, inputs + [next], root) && Met(first, inputs, root, i, path)
    requires i in TreeTable(first, inputs + [next], root, |inputs| + 1)
    ensures TreeTable(first, inputs + [next], root, |inputs| + 1)[i] == path
  {
    var all := inputs + [next];
    var k :| 0 <= k <= |inputs| && Walked(first, inputs, root, k) &&
             Get(TreeTable(first, inputs, root, k), i) == Some(path);
    WalkedExtend(first, inputs, next, root, k);
    assert Agree(TreeTable(first, all, root, k), TreeTable(first, all, root, |all|));
  }

  /** With stable names the cache is exactly what the walks met. */
  lemma {:induction false} CacheIsMet(first: Dir, inputs: seq<Input>, root: string, i: Ino, path: string)
    requires StableNames(first, inputs, root)
    ensures Get(After(first, inputs, root).cache, i) == Some(path) <==> Met(first, inputs, root, i, path)
    decreases |inputs|
  {
    if inputs == [] {
      assert TreeTable(first, inputs, root, 0) == After(first, inputs, root).cache;
      assert Walked(first, inputs, root, 0);
    } else {
      var n := |inputs| - 1;
      var init, next := inputs[..n], inputs[n];
      assert inputs == init + [next];
      StablePrefix(first, init, next, root);
      CacheIsMet(first, init, root, i, path);
      MetExtend(first, init, next, root, i, path);
      CacheStep(first, init, next, root);
      var before, table := After(first, init, root).cache, TreeTable(first, inputs, root, n + 1);
      if i in before && i in table {
        CacheIsMet(first, init, root, i, before[i]);
        MetIsStable(first, init, next, root, i, before[i]);
      }
    }
  }

  /** A record that is missing or too short changes nothing. */
  lemma UnreadableIgnored(s: State, input: Input, root: string)
    requires input.ReadError? || |input.raw| < 48
    ensures Handle(s, input, root) == s
  {
    if input.Record? {
      EventWire.DecodeReads48(input.raw);
    }
  }

  lemma HandleResolved(s: State, input: Input, root: string, ev: EventWire.Event)
    requires input.Record? && EventWire.Decode(input.raw) == Some(ev)
    ensures var t := Handle(s, input, root);
            match Get(t.cache, ev.cgid)
            case None => t == s.(cache := t.cache)
            case Some(path) =>
              match CgroupPaths.ExtractContainerID(path)
              case None => t == s.(cache := t.cache)
              case Some(id) => PostedOnto(s, t, Post(id, ev.ts))
  {}

  /** A well-formed record is posted for a container exactly when some walk so far, its own included, met its cgroup
      under a path that names this container; whether the cgroup still exists does not matter. Otherwise posts and
      counters stay as they are. */
  lemma PostedIffMet(first: Dir, inputs: seq<Input>, next: Input, root: string, ev: EventWire.Event, id: string)
    requires StableNames(first, inputs + [next], root) && next.Record? && EventWire.Decode(next.raw) == Some(ev)
    ensures var s, t := After(first, inputs, root), After(first, inputs + [next], root);
            && (PostedOnto(s, t, Post(id, ev.ts)) <==>
                exists path :: Met(first, inputs + [next], root, ev.cgid, path) &&
                               CgroupPaths.ExtractContainerID(path) == Some(id))
            && (t == s.(cache := t.cache) <==>
                forall path :: Met(first, inputs + [next], root, ev.cgid, path) ==>
                               CgroupPaths.ExtractContainerID(path) == None)
  {
    var s, t := After(first, inputs, root), After(first, inputs + [next], root);
    AfterStep(first, inputs, next, root);
    HandleResolved(s, next, root, ev);
    forall path
      ensures Met(first, inputs + [next], root, ev.cgid, path) <==> Get(t.cache, ev.cgid) == Some(path)
    {
      CacheIsMet(first, inputs + [next], root, ev.cgid, path);
    }
    assert t.posts == s.posts || t.posts[|s.posts|] == t.posts[|t.posts| - 1];
  }

  lemma MetGrows(first: Dir, inputs: seq<Input>, next: Input, root: string, i: Ino, path: string)
    requires Met(first, inputs, root, i, path)
    ensures Met(first, inputs + [next], root, i, path)
  {
    MetExtend(first, inputs, next, root, i, path);
  }

  lemma LastApart(inputs: seq<Input>, more: seq<Input>)
    requires more != []
    ensures inputs + more == (inputs + more[..|more| - 1]) + [more[|more| - 1]]
  {}

  lemma {:induction false} MetForGood(first: Dir, inputs: seq<Input>, more: seq<Input>, root: string,
                                      i: Ino, path: string)
    requires Met(first, inputs, root, i, path)
    ensures Met(first, inputs + more, root, i, path)
    decreases |more|
  {
    if more == [] {
      assert inputs + more == inputs;
    } else {
      var n := |more| - 1;
      MetForGood(first, inputs, more[..n], root, i, path);
      MetGrows(first, inputs + more[..n], more[n], root, i, path);
      LastApart(inputs, more);
    }
  }

  /** So the events of a container that is deleted before they are handled are still charged to it. */
  lemma OnceMetAlwaysPosted(first: Dir, inputs: seq<Input>, more: seq<Input>, next: Input, root: string,
                            path: string, ev: EventWire.Event, id: string)
    requires StableNames(first, inputs + more + [next], root)
    requires Met(first, inputs, root, ev.cgid, path) && CgroupPaths.ExtractContainerID(path) == Some(id)
    requires next.Record? && EventWire.Decode(next.raw) == Some(ev)
    ensures PostedOnto(After(first, inputs + more, root), After(first, inputs + more + [next], root), Post(id, ev.ts))
  {
    MetForGood(first, inputs, more, root, ev.cgid, path);
    MetExtend(first, inputs + more, next, root, ev.cgid, path);
    PostedIffMet(first, inputs + more, next, root, ev, id);
  }

  /** An id that no tree of the history contained is not charged to anyone, and leaves the counters alone. */
  lemma UnknownNotCharged(first: Dir, inputs: seq<Input>, next: Input, root: string)
    requires next.Record? && EventWire.Decode(next.raw).Some?
    requires forall k :: 0 <= k <= |inputs| + 1 ==>
               EventWire.Decode(next.raw).value.cgid !in TreeTable(first, inputs + [next], root, k)
    ensures var s, t := After(first, inputs, root), After(first, inputs + [next], root);
            t.counts == s.counts && t.total == s.total && t.posts == s.posts
  {
    var all := inputs + [next];
    assert all[..|inputs|] == inputs;
    var cache := After(first, inputs, root).cache;
    var cgid := EventWire.Decode(next.raw).value.cgid;
    if cgid in cache {
      CacheFromHistory(first, inputs, root, cgid);
      InHistoryExtend(first, inputs, next, root, cgid, cache[cgid]);
    }
    assert TreeTable(first, all, root, |all|) == Table(Walk(root, next.tree));
  }
}
