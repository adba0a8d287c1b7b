/** Cgroup paths on both sides of the system: built by the actuator from a cgroupsPath, taken apart by the
    event agent to find the container. */
module CgroupPaths {
  import opened Wrappers
  import opened Text

  const ROOT := "/sys/fs/cgroup"

  // ---- Joining path elements -----------------------------------------------

  /** The components that remain of an absolute path after the lexical clean-up. */
  function Resolve(components: seq<string>): seq<string> {
    if components == [] then []
    else
      var init, c := Resolve(components[..|components| - 1]), components[|components| - 1];
      if c == "" || c == "." then init
      else if c == ".." then (if init == [] then [] else init[..|init| - 1])
      else init + [c]
  }

  function CleanAbsolute(path: string): string {
    var parts := Resolve(Split(path, '/'));
    if parts == [] then "/" else "/" + Join(parts, '/')
  }

  /** filepath.Join for a first element that is absolute. */
  function FilepathJoin(base: string, elements: seq<string>): string {
    CleanAbsolute(Join([base] + elements, '/'))
  }

  // ---- The actuator --------------------------------------------------------

  function LastIndexBelow(s: string, sub: string, end: nat): (r: Option<nat>)
    ensures r.Some? ==> r.value < end && At(s, r.value, sub)
    ensures forall k: nat :: k < end && At(s, k, sub) ==> r.Some? && k <= r.value
  {
    if end == 0 then None
    else if At(s, end - 1, sub) then Some(end - 1)
    else LastIndexBelow(s, sub, end - 1)
  }

  /** The last position of `sub`, or None. */
  function LastIndex(s: string, sub: string): (r: Option<nat>)
    ensures r.Some? ==> At(s, r.value, sub)
    ensures forall k: nat :: At(s, k, sub) ==> r.Some? && k <= r.value
  {
    LastIndexBelow(s, sub, |s| + 1)
  }

  datatype Paths = Paths(container: string, pod: string)

  /** `cgroupsPath` has the form "slice:runtime:id"; None is one of the error returns. */
  function PathsFrom(cgroupsPath: string): Option<Paths> {
    var parts := Split(cgroupsPath, ':');
    if cgroupsPath == "" || |parts| != 3 then None
    else
      var slice, runtimeName, scopeId := parts[0], parts[1], parts[2];
      var idx := LastIndex(slice, "-pod");
      if idx.None? || idx.value == 0 then None
      else
        var qos := slice[..idx.value] + ".slice";
        var pod := FilepathJoin(ROOT, ["kubepods.slice", qos, slice]);
        Some(Paths(FilepathJoin(pod, [runtimeName + "-" + scopeId + ".scope"]), pod))
  }

  // ---- The event agent -----------------------------------------------------

  const ID_LENGTH: nat := 64

  predicate IsHex(c: char) {
    'a' <= c <= 'f' || '0' <= c <= '9'
  }

  predicate IsId(s: string) {
    |s| == ID_LENGTH && forall i :: 0 <= i < |s| ==> IsHex(s[i])
  }

  /** `marker` at position `i`, followed by a container id. */
  predicate MarkedId(path: string, i: nat, marker: string) {
    At(path, i, marker) && i + |marker| + ID_LENGTH <= |path| && IsId(path[i + |marker|..i + |marker| + ID_LENGTH])
  }

  function IdAt(path: string, i: nat): (r: Option<string>)
    ensures r.Some? ==> IsId(r.value)
  {
    if MarkedId(path, i, "cri-containerd-") then Some(path[i + 15..i + 15 + ID_LENGTH])
    else if MarkedId(path, i, "docker-") then Some(path[i + 7..i + 7 + ID_LENGTH])
    else if MarkedId(path, i, "crio-") then Some(path[i + 5..i + 5 + ID_LENGTH])
    else None
  }

  /** The leftmost match from `i` on. */
  function FirstId(path: string, i: nat): (r: Option<string>)
    ensures r.Some? ==> IsId(r.value)
    decreases |path| - i
  {
    if |path| <= i then None
    else if IdAt(path, i).Some? then IdAt(path, i)
    else FirstId(path, i + 1)
  }

  function ExtractContainerID(path: string): (r: Option<string>)
    ensures r.Some? ==> IsId(r.value)
  {
    FirstId(path, 0)
  }

  // ---- Clean paths ---------------------------------------------------------

  /** A path component that the clean-up leaves alone. */
  predicate Plain(c: string) {
    '/' !in c && c != "" && c != "." && c != ".."
  }

  predicate AllPlain(components: seq<string>) {
    forall i :: 0 <= i < |components| ==> Plain(components[i])
  }

  lemma {:induction false} ResolvePlain(components: seq<string>)
    requires AllPlain(components)
    ensures Resolve(components) == components
    ensures Resolve([""] + components) == components
  {
    if components != [] {
      var init := components[..|components| - 1];
      ResolvePlain(init);
      var longer := [""] + components;
      assert longer[..|longer| - 1] == [""] + init;
    } else {
      assert Resolve([""][..0]) == [];
      assert [""] + components == [""];
    }
  }

  /** An absolute path of plain components. */
  function Absolute(components: seq<string>): string
    requires components != []
  {
    "/" + Join(components, '/')
  }

  lemma {:induction false} JoinAppend(a: seq<string>, b: seq<string>)
    requires a != [] && b != []
    ensures Join(a + b, '/') == Join(a, '/') + "/" + Join(b, '/')
    decreases |a|
  {
    if |a| == 1 {
      assert (a + b)[1..] == b;
    } else {
      JoinAppend(a[1..], b);
      assert (a + b)[1..] == a[1..] + b;
    }
  }

  lemma JoinAbsolute(a: seq<string>, b: seq<string>)
    requires a != [] && b != [] && AllPlain(a) && AllPlain(b)
    ensures FilepathJoin(Absolute(a), b) == Absolute(a + b)
  {
    var all := [""] + (a + b);
    assert all[1..] == a + b;
    JoinAppend(a, b);
    JoinAppend([Absolute(a)], b);
    assert Join([Absolute(a)] + b, '/') == Join(all, '/');
    SplitJoin(all, '/');
    ResolvePlain(a + b);
  }

  /** The clean-up in terms of what each further component does: nothing, go up, or go down. */
  lemma ResolveLaws(a: seq<string>, c: string)
    ensures Resolve(a + [""]) == Resolve(a + ["."]) == Resolve(a)
    ensures c !in {"", ".", ".."} ==> Resolve(a + [c]) == Resolve(a) + [c] && Resolve(a + [c] + [".."]) == Resolve(a)
    ensures Resolve(a) == [] ==> Resolve(a + [".."]) == []
  {
    assert forall d :: (a + [d])[..|a|] == a;
    assert (a + [c] + [".."])[..|a| + 1] == a + [c];
    if c !in {"", ".", ".."} {
      assert (Resolve(a) + [c])[..|Resolve(a)|] == Resolve(a);
    }
  }

  lemma RootIsAbsolute()
    ensures ROOT == Absolute(["sys", "fs", "cgroup"])
  {
    assert Join(["cgroup"], '/') == "cgroup";
    assert Join(["fs", "cgroup"], '/') == "fs/cgroup";
    assert ["sys", "fs", "cgroup"][1..] == ["fs", "cgroup"];
    assert Join(["sys", "fs", "cgroup"], '/') == "sys/fs/cgroup";
  }

  function ScopeName(runtimeName: string, id: string): string {
    runtimeName + "-" + id + ".scope"
  }

  lemma SplitInThree(slice: string, runtimeName: string, id: string)
    requires ':' !in slice && ':' !in runtimeName && ':' !in id
    ensures Split(slice + ":" + (runtimeName + ":" + id), ':') == [slice, runtimeName, id]
  {
    SplitPrefix(slice, ':', runtimeName + ":" + id);
    SplitPrefix(runtimeName, ':', id);
    SplitPrefix(id, ':', []);
  }

  lemma NamesArePlain(slice: string, idx: nat)
    requires '/' !in slice && At(slice, idx, "-pod")
    ensures Plain(slice) && Plain(slice[..idx] + ".slice")
  {
    assert 4 <= |slice| && 6 <= |slice[..idx] + ".slice"|;
  }

  lemma ScopeIsPlain(runtimeName: string, id: string)
    requires '/' !in runtimeName && '/' !in id
    ensures Plain(ScopeName(runtimeName, id))
  {
    assert ScopeName(runtimeName, id)[|runtimeName|] == '-';
  }

  lemma JoinThree(a: string, b: string, c: string)
    ensures Join([a, b, c], '/') == a + "/" + (b + "/" + c)
  {
    assert [a, b, c][1..] == [b, c] && [b, c][1..] == [c];
    assert Join([b, c], '/') == b + "/" + Join([c], '/');
  }

  lemma PodDirectory(qos: string, slice: string)
    requires Plain(qos) && Plain(slice)
    ensures var components := ["sys", "fs", "cgroup"] + ["kubepods.slice", qos, slice];
            && AllPlain(components)
            && FilepathJoin(ROOT, ["kubepods.slice", qos, slice]) == Absolute(components)
            && Absolute(components) == ROOT + "/" + ("kubepods.slice" + "/" + (qos + "/" + slice))
  {
    var root := ["sys", "fs", "cgroup"];
    var below := ["kubepods.slice", qos, slice];
    assert AllPlain(root) && Plain("kubepods.slice") && AllPlain(below);
    RootIsAbsolute();
    JoinAbsolute(root, below);
    JoinAppend(root, below);
    JoinThree("kubepods.slice", qos, slice);
  }

  lemma Regroup(root: string, qos: string, slice: string)
    ensures root + "/" + ("kubepods.slice" + "/" + (qos + "/" + slice)) == root + "/kubepods.slice/" + qos + "/" + slice
  {}

  lemma ContainerDirectory(components: seq<string>, scope: string)
    requires components != [] && AllPlain(components) && Plain(scope)
    ensures FilepathJoin(Absolute(components), [scope]) == Absolute(components) + "/" + scope
  {
    JoinAbsolute(components, [scope]);
    JoinAppend(components, [scope]);
  }

  /** For a slice name with a pod segment behind its start, the pod's directory lies in its QoS slice and the
      container's directory directly in the pod's. */
  lemma PathsShape(slice: string, runtimeName: string, id: string)
    requires ':' !in slice && ':' !in runtimeName && ':' !in id
    requires '/' !in slice && '/' !in runtimeName && '/' !in id
    requires LastIndex(slice, "-pod").Some? && 0 < LastIndex(slice, "-pod").value
    ensures var qos := slice[..LastIndex(slice, "-pod").value] + ".slice";
            var pod := ROOT + "/kubepods.slice/" + qos + "/" + slice;
            PathsFrom(slice + ":" + (runtimeName + ":" + id)) ==
            Some(Paths(pod + "/" + (runtimeName + "-" + id + ".scope"), pod))
  {
    SplitInThree(slice, runtimeName, id);
    var idx := LastIndex(slice, "-pod").value;
    var qos := slice[..idx] + ".slice";
    NamesArePlain(slice, idx);
    ScopeIsPlain(runtimeName, id);
    PodDirectory(qos, slice);
    Regroup(ROOT, qos, slice);
    ContainerDirectory(["sys", "fs", "cgroup"] + ["kubepods.slice", qos, slice], ScopeName(runtimeName, id));
  }

  ghost predicate ThreeParts(cgroupsPath: string, slice: string, runtimeName: string, id: string) {
    cgroupsPath == slice + ":" + (runtimeName + ":" + id) && ':' !in slice && ':' !in runtimeName && ':' !in id
  }

  lemma JoinOfThree(parts: seq<string>)
    requires |parts| == 3
    ensures Join(parts, ':') == parts[0] + ":" + (parts[1] + ":" + parts[2])
  {
    var tail := parts[1..];
    assert tail[1..] == [parts[2]] && Join([parts[2]], ':') == parts[2];
    assert Join(tail, ':') == parts[1] + [':'] + parts[2];
  }

  ghost predicate HasPodSegment(slice: string) {
    exists k: nat :: 0 < k && At(slice, k, "-pod")
  }

  /** Which texts give paths: three parts, and a pod segment behind the start of the first. */
  lemma PathsExist(cgroupsPath: string)
    ensures PathsFrom(cgroupsPath).Some? <==>
            exists slice, runtimeName, id :: ThreeParts(cgroupsPath, slice, runtimeName, id) && HasPodSegment(slice)
  {
    if slice, runtimeName, id :| ThreeParts(cgroupsPath, slice, runtimeName, id) && HasPodSegment(slice) {
      SplitInThree(slice, runtimeName, id);
      assert PathsFrom(cgroupsPath).Some?;
    }
    if PathsFrom(cgroupsPath).Some? {
      var parts := Split(cgroupsPath, ':');
      JoinSplit(cgroupsPath, ':');
      JoinOfThree(parts);
      assert ThreeParts(cgroupsPath, parts[0], parts[1], parts[2]);
      assert HasPodSegment(parts[0]);
    }
  }

  // ---- What the agent finds in such a path ---------------------------------

  /** No marked id reaches across a slash. */
  lemma MarkedIdInParent(a: string, b: string, i: nat, marker: string)
    requires '/' !in marker && marker != "" && i <= |a|
    ensures MarkedId(a + "/" + b, i, marker) <==> MarkedId(a, i, marker)
    ensures var n := i + |marker|;
            MarkedId(a, i, marker) ==> (a + "/" + b)[n..n + ID_LENGTH] == a[n..n + ID_LENGTH]
  {
    var p := a + "/" + b;
    var mid := i + |marker|;
    var end := mid + ID_LENGTH;
    assert p[|a|] == '/';
    if MarkedId(p, i, marker) {
      assert forall j :: i <= j < mid ==> p[j] == marker[j - i];
      assert forall j :: mid <= j < end ==> p[j] == p[mid..end][j - mid];
      assert forall j :: mid <= j < end ==> IsHex(p[j]);
      assert end <= |a|;
    }
    if end <= |a| {
      assert a[i..mid] == p[i..mid];
      assert a[mid..end] == p[mid..end];
    }
  }

  lemma IdAtInParent(a: string, b: string, i: nat)
    requires i <= |a|
    ensures IdAt(a + "/" + b, i) == IdAt(a, i)
  {
    MarkedIdInParent(a, b, i, "cri-containerd-");
    MarkedIdInParent(a, b, i, "docker-");
    MarkedIdInParent(a, b, i, "crio-");
  }

  /** `id`, 64 lower-case hexadecimal digits, stands at `i` behind one of the three markers. */
  ghost predicate Shows(path: string, i: nat, id: string) {
    && |id| == 64 && (forall k :: 0 <= k < 64 ==> id[k] in "0123456789abcdef")
    && exists marker :: marker in {"cri-containerd-", "docker-", "crio-"} && At(path, i, marker + id)
  }

  lemma MarkedIdShown(path: string, i: nat, marker: string, id: string)
    requires IsId(id)
    ensures At(path, i, marker + id) <==>
            MarkedId(path, i, marker) && path[i + |marker|..i + |marker| + ID_LENGTH] == id
  {
    AtAppend(path, i, marker, id);
  }

  lemma HexDigits(id: string)
    ensures IsId(id) <==> |id| == 64 && forall k :: 0 <= k < 64 ==> id[k] in "0123456789abcdef"
  {
    assert forall c: char :: IsHex(c) <==> c in "0123456789abcdef";
  }

  lemma NotMarked(path: string, i: nat, marker: string, k: nat)
    requires k < |marker| && i + k < |path| && path[i + k] != marker[k]
    ensures !MarkedId(path, i, marker)
  {
    if i + |marker| <= |path| {
      assert path[i..i + |marker|][k] == path[i + k];
    }
  }

  /** No two markers stand at one place. */
  lemma OneMarker(path: string, i: nat)
    ensures MarkedId(path, i, "cri-containerd-") ==> !MarkedId(path, i, "docker-") && !MarkedId(path, i, "crio-")
    ensures MarkedId(path, i, "docker-") ==> !MarkedId(path, i, "crio-")
  {
    if MarkedId(path, i, "cri-containerd-") {
      assert path[i] == path[i..i + 15][0] && path[i + 3] == path[i..i + 15][3];
      NotMarked(path, i, "docker-", 0);
      NotMarked(path, i, "crio-", 3);
    }
    if MarkedId(path, i, "docker-") {
      assert path[i] == path[i..i + 7][0];
      NotMarked(path, i, "crio-", 0);
    }
  }

  lemma IdAtShows(path: string, i: nat, id: string)
    ensures IdAt(path, i) == Some(id) <==> Shows(path, i, id)
  {
    HexDigits(id);
    OneMarker(path, i);
    if IsId(id) {
      MarkedIdShown(path, i, "cri-containerd-", id);
      MarkedIdShown(path, i, "docker-", id);
      MarkedIdShown(path, i, "crio-", id);
    }
  }

  ghost predicate NoneShown(path: string, i: nat, end: nat) {
    forall k: nat, id :: i <= k < end ==> !Shows(path, k, id)
  }

  lemma NoneHere(path: string, i: nat)
    requires IdAt(path, i).None?
    ensures NoneShown(path, i, i + 1)
  {
    forall id
      ensures !Shows(path, i, id)
    {
      IdAtShows(path, i, id);
    }
  }

  lemma {:induction false} FirstIdExact(path: string, i: nat) returns (j: nat)
    ensures i <= j && NoneShown(path, i, j)
    ensures if FirstId(path, i).None? then |path| <= j else Shows(path, j, FirstId(path, i).value)
    decreases |path| - i
  {
    if |path| <= i {
      j := i;
    } else if IdAt(path, i).Some? {
      j := i;
      IdAtShows(path, i, FirstId(path, i).value);
    } else {
      NoneHere(path, i);
      j := FirstIdExact(path, i + 1);
    }
  }

  /** The agent finds the leftmost id that stands behind one of the three markers, and none if there is none. */
  lemma ExtractExact(path: string)
    ensures ExtractContainerID(path).None? <==> NoneShown(path, 0, |path|)
    ensures ExtractContainerID(path).Some? ==>
              exists j: nat :: Shows(path, j, ExtractContainerID(path).value) && NoneShown(path, 0, j)
  {
    var j := FirstIdExact(path, 0);
    if ExtractContainerID(path).Some? {
      assert Shows(path, j, ExtractContainerID(path).value) && j < |path|;
    }
  }

  /** The runtimes whose scopes the agent's pattern names. */
  predicate KnownRuntime(runtimeName: string) {
    runtimeName in {"cri-containerd", "docker", "crio"}
  }

  lemma ScopeIsMarked(a: string, runtimeName: string, id: string)
    requires IsId(id)
    ensures var p, i, n := a + "/" + ScopeName(runtimeName, id), |a| + 1, |runtimeName| + 1;
            && MarkedId(p, i, runtimeName + "-") && p[i + n..i + n + ID_LENGTH] == id
            && forall k :: 0 <= k < n ==> p[i + k] == (runtimeName + "-")[k]
  {
    var p, i, n := a + "/" + ScopeName(runtimeName, id), |a| + 1, |runtimeName| + 1;
    assert p == a + "/" + (runtimeName + "-") + id + ".scope";
    assert p[i..i + n] == runtimeName + "-";
    assert p[i + n..i + n + ID_LENGTH] == id;
  }

  lemma ScopeCarriesId(a: string, runtimeName: string, id: string)
    requires KnownRuntime(runtimeName) && IsId(id)
    ensures IdAt(a + "/" + ScopeName(runtimeName, id), |a| + 1) == Some(id)
  {
    var p, i := a + "/" + ScopeName(runtimeName, id), |a| + 1;
    ScopeIsMarked(a, runtimeName, id);
    if runtimeName == "cri-containerd" {
      assert runtimeName + "-" == "cri-containerd-";
    } else if runtimeName == "docker" {
      assert runtimeName + "-" == "docker-";
      NotMarked(p, i, "cri-containerd-", 0);
    } else {
      assert runtimeName + "-" == "crio-";
      NotMarked(p, i, "cri-containerd-", 3);
      NotMarked(p, i, "docker-", 0);
    }
  }

  lemma {:induction false} FirstIdInScope(a: string, runtimeName: string, id: string, i: nat)
    requires KnownRuntime(runtimeName) && IsId(id) && i <= |a|
    ensures FirstId(a + "/" + ScopeName(runtimeName, id), i) ==
            if FirstId(a, i).Some? then FirstId(a, i) else Some(id)
    decreases |a| - i
  {
    IdAtInParent(a, ScopeName(runtimeName, id), i);
    if i < |a| {
      FirstIdInScope(a, runtimeName, id, i + 1);
    } else {
      ScopeCarriesId(a, runtimeName, id);
      assert IdAt(a, |a|).None?;
    }
  }

  /** From the cgroupsPath of a container of these runtimes, the agent recovers exactly the id the actuator built the
      path from, unless the pod's own path already shows another id. */
  lemma IdRoundTrip(slice: string, runtimeName: string, id: string)
    requires KnownRuntime(runtimeName) && IsId(id) && ':' !in slice && '/' !in slice
    requires LastIndex(slice, "-pod").Some? && 0 < LastIndex(slice, "-pod").value
    ensures var paths := PathsFrom(slice + ":" + (runtimeName + ":" + id));
            && paths.Some?
            && paths.value.container == paths.value.pod + "/" + ScopeName(runtimeName, id)
            && (ExtractContainerID(paths.value.container) == Some(id) <==>
                ExtractContainerID(paths.value.pod) in {None, Some(id)})
  {
    assert ':' !in id && '/' !in id;
    PathsShape(slice, runtimeName, id);
    FirstIdInScope(PathsFrom(slice + ":" + (runtimeName + ":" + id)).value.pod, runtimeName, id, 0);
  }

  lemma {:induction false} NoIdBehind(a: string, b: string, i: nat)
    requires forall j: nat :: |a| < j ==> IdAt(a + "/" + b, j) == None
    ensures FirstId(a + "/" + b, i) == if i < |a| then FirstId(a, i) else None
    decreases |a| + 1 + |b| - i
  {
    if i <= |a| {
      IdAtInParent(a, b, i);
    }
    if i < |a| + 1 + |b| {
      NoIdBehind(a, b, i + 1);
    }
  }

  /** The scope's only "r" is its second letter. */
  lemma MonitorLetters(a: string, id: string)
    requires IsId(id)
    ensures var p, n := a + "/" + ScopeName("crio-conmon", id), |a| + 1;
            && |p| == n + 82 && p[n] == 'c' && p[n + 3] == 'o' && p[n + 6] == 'o'
            && forall k :: n <= k < |p| && p[k] == 'r' ==> k == n + 1
  {
    var p := a + "/" + ScopeName("crio-conmon", id);
    var n := |a| + 1;
    assert p == a + "/" + "crio-conmon-" + id + ".scope";
    assert forall k :: n <= k < n + 12 ==> p[k] == "crio-conmon-"[k - n];
    assert forall k :: n + 12 <= k < n + 76 ==> p[k] == id[k - n - 12];
    assert forall k :: n + 76 <= k < n + 82 ==> p[k] == ".scope"[k - n - 76];
  }

  /** Every marker has an "r". */
  lemma MonitorPosition(a: string, id: string, j: nat)
    requires IsId(id) && |a| < j
    ensures IdAt(a + "/" + ScopeName("crio-conmon", id), j) == None
  {
    var p := a + "/" + ScopeName("crio-conmon", id);
    var n := |a| + 1;
    MonitorLetters(a, id);
    if j == n {
      NotMarked(p, j, "cri-containerd-", 3);
      NotMarked(p, j, "docker-", 0);
      assert p[n + 6] == p[n + 5..n + 5 + ID_LENGTH][1];
    } else {
      if j + 1 < |p| {
        NotMarked(p, j, "cri-containerd-", 1);
        NotMarked(p, j, "crio-", 1);
      }
      if j + 5 < |p| {
        NotMarked(p, j, "docker-", 5);
      }
    }
  }

  /** The scope of a container's monitor process has "conmon" where an id would have to stand, so its path shows
      what the pod's path shows. */
  lemma MonitorHasNoId(a: string, id: string)
    requires IsId(id)
    ensures ExtractContainerID(a + "/" + ScopeName("crio-conmon", id)) == ExtractContainerID(a)
  {
    var p := a + "/" + ScopeName("crio-conmon", id);
    forall j: nat | |a| < j
      ensures IdAt(p, j) == None
    {
      MonitorPosition(a, id, j);
    }
    NoIdBehind(a, ScopeName("crio-conmon", id), 0);
  }
}
