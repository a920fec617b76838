/** Path names: the elements between slashes, and the walk along them from directory to directory. */
module FsPath {

  import opened FsBytes
  import opened FsInode
  import opened FsFile
  import opened FsDir
  import opened Options

  const SLASH: Byte := 47

  // A path here is the bytes before its terminating NUL.

  /** Bytes before the first slash. */
  function Run(path: seq<Byte>): (k: nat)
    ensures k <= |path| && (forall i :: 0 <= i < k ==> path[i] != SLASH) && (k < |path| ==> path[k] == SLASH)
  {
    if path == [] || path[0] == SLASH then 0 else 1 + Run(path[1..])
  }

  /** The nonempty elements between slashes, in order. */
  function Elements(path: seq<Byte>): seq<seq<Byte>>
    decreases |path|
  {
    if path == [] then []
    else if path[0] == SLASH then Elements(path[1..])
    else [path[..Run(path)]] + Elements(path[Run(path)..])
  }

  // Elements joined by slashes, with any number of slashes in front of each.
  function Join(elems: seq<seq<Byte>>, extra: seq<nat>): seq<Byte>
    requires |extra| == |elems|
  {
    if elems == [] then [] else Slashes(extra[0] + 1) + elems[0] + Join(elems[1..], extra[1..])
  }

  function Slashes(n: nat): (s: seq<Byte>)
    ensures |s| == n && forall i :: 0 <= i < n ==> s[i] == SLASH
  {
    if n == 0 then [] else [SLASH] + Slashes(n - 1)
  }

  ghost predicate IsElement(e: seq<Byte>) { e != [] && forall i :: 0 <= i < |e| ==> e[i] != SLASH }

  lemma {:induction false} SlashesVanish(n: nat, p: seq<Byte>)
    ensures Elements(Slashes(n) + p) == Elements(p)
  {
    if n == 0 {
      assert Slashes(0) + p == p;
    } else {
      assert (Slashes(n) + p)[1..] == Slashes(n - 1) + p;
      SlashesVanish(n - 1, p);
    }
  }

  lemma {:induction false} RunOf(e: seq<Byte>, p: seq<Byte>)
    requires (forall i :: 0 <= i < |e| ==> e[i] != SLASH) && (p == [] || p[0] == SLASH)
    ensures Run(e + p) == |e|
  {
    if e == [] {
      assert e + p == p;
    } else {
      assert (e + p)[1..] == e[1..] + p;
      RunOf(e[1..], p);
    }
  }

  /** However many slashes separate them, the elements of a joined path are the ones joined. */
  lemma {:induction false} ElementsOfJoin(elems: seq<seq<Byte>>, extra: seq<nat>)
    requires |extra| == |elems| && forall i :: 0 <= i < |elems| ==> IsElement(elems[i])
    ensures Elements(Join(elems, extra)) == elems
  {
    if elems != [] {
      var e, rest := elems[0], Join(elems[1..], extra[1..]);
      assert IsElement(e);
      ElementsOfJoin(elems[1..], extra[1..]);
      assert Join(elems, extra) == Slashes(extra[0] + 1) + (e + rest);
      SlashesVanish(extra[0] + 1, e + rest);
      RunOf(e, rest);
      assert (e + rest)[..|e|] == e && (e + rest)[|e|..] == rest;
      assert elems == [e] + elems[1..];
    }
  }

  // ---------------------------------------------------------------- skipelem

  /** The first and last loops of skipelem. */
  method SkipSlashes(path: seq<Byte>) returns (rest: seq<Byte>)
    ensures Elements(rest) == Elements(path) && (rest == [] || rest[0] != SLASH) && |rest| <= |path|
    ensures exists k :: 0 <= k <= |path| && rest == path[k..]
  {
    var k := 0;
    while k < |path| && path[k] == SLASH
      invariant 0 <= k <= |path| && Elements(path[k..]) == Elements(path)
    {
      assert path[k..][1..] == path[k + 1..];
      k := k + 1;
    }
    rest := path[k..];
  }

  /** The loop over the bytes of an element. */
  method SkipName(path: seq<Byte>) returns (k: nat)
    ensures k == Run(path)
  {
    k := 0;
    assert path[0..] == path;
    while k < |path| && path[k] != SLASH
      invariant 0 <= k <= |path| && Run(path) == k + Run(path[k..])
    {
      assert path[k..][1..] == path[k + 1..];
      k := k + 1;
    }
  }

  /**
    skipelem: the first element, cut to what a directory entry holds, and the path after it; fails if there is
    none.
   */
  method SkipElem(path: seq<Byte>) returns (ok: bool, name: seq<Byte>, rest: seq<Byte>)
    ensures ok <==> Elements(path) != []
    ensures ok ==>
      && name == Elements(path)[0][..Min(DIRSIZ, |Elements(path)[0]|)]
      && Elements(rest) == Elements(path)[1..] && (rest == [] || rest[0] != SLASH) && |rest| < |path|
      && (rest == [] <==> |Elements(path)| == 1)
  {
    name := [];
    var p := SkipSlashes(path);
    if p == [] {
      return false, [], [];
    }
    var len := SkipName(p);
    name := p[..Min(DIRSIZ, len)];
    rest := SkipSlashes(p[len..]);
    assert Elements(p) == [p[..len]] + Elements(p[len..]);
    assert name == p[..len][..Min(DIRSIZ, len)];
    return true, name, rest;
  }

  // ---------------------------------------------------------------- namex

  /** The inodes in dirs are the directories; every entry of a directory leads to an inode. */
  ghost predicate IsTree(st: State, dirs: set<nat>) {
    forall d {:trigger d in dirs} :: d in dirs ==> IsDir(st, d) && forall nm :: nm in DirOf(st, d) ==>
        DirOf(st, d)[nm] in st.inodes
  }

  /** The walk along elems: at each a lookup in a directory, which may fail. */
  ghost function Walk(st: State, dirs: set<nat>, ip: nat, elems: seq<seq<Byte>>): Option<nat>
    requires IsTree(st, dirs)
    decreases |elems|
  {
    if elems == [] then Some(ip)
    else if ip !in dirs || Cut(elems[0], DIRSIZ) !in DirOf(st, ip) then None
    else Walk(st, dirs, DirOf(st, ip)[Cut(elems[0], DIRSIZ)], elems[1..])
  }

  /**
    What namex returns: the end of the walk, or for the parent, the directory in which the last element is to be
    found.
   */
  ghost function Resolve(st: State, dirs: set<nat>, ip: nat, elems: seq<seq<Byte>>, parent: bool): Option<nat>
    requires IsTree(st, dirs)
  {
    if !parent then Walk(st, dirs, ip, elems)
    else if elems == [] then None
    else match Walk(st, dirs, ip, elems[..|elems| - 1])
      case None => None
      case Some(d) => if d in dirs then Some(d) else None
  }

  /** d is a directory whose map takes element e to d'. */
  ghost predicate Entered(st: State, dirs: set<nat>, d: nat, e: seq<Byte>, d': nat)
    requires IsTree(st, dirs)
  {
    d in dirs && Cut(e, DIRSIZ) in DirOf(st, d) && DirOf(st, d)[Cut(e, DIRSIZ)] == d'
  }

  /** Each inode of ds but the last is a directory, in which the element of es at its place leads to the next one. */
  ghost predicate Leads(st: State, dirs: set<nat>, es: seq<seq<Byte>>, ds: seq<nat>)
    requires IsTree(st, dirs)
  {
    && |ds| == |es| + 1
    && forall i :: 0 <= i < |es| ==> Entered(st, dirs, ds[i], es[i], ds[i + 1])
  }

  /** The elements es lead from inode ip to inode x, which may be of any kind. */
  ghost predicate Reaches(st: State, dirs: set<nat>, ip: nat, es: seq<seq<Byte>>, x: nat)
    requires IsTree(st, dirs)
  {
    exists ds :: Leads(st, dirs, es, ds) && ds[0] == ip && ds[|es|] == x
  }

  lemma {:induction false} LeadsWalk(st: State, dirs: set<nat>, es: seq<seq<Byte>>, ds: seq<nat>)
    requires IsTree(st, dirs) && Leads(st, dirs, es, ds)
    ensures Walk(st, dirs, ds[0], es) == Some(ds[|es|])
    decreases |es|
  {
    if es != [] {
      assert Entered(st, dirs, ds[0], es[0], ds[1]);
      assert Leads(st, dirs, es[1..], ds[1..]);
      LeadsWalk(st, dirs, es[1..], ds[1..]);
    }
  }

  lemma {:induction false} WalkLeads(st: State, dirs: set<nat>, ip: nat, es: seq<seq<Byte>>) returns (ds: seq<nat>)
    requires IsTree(st, dirs) && Walk(st, dirs, ip, es).Some?
    ensures Leads(st, dirs, es, ds) && ds[0] == ip
    decreases |es|
  {
    ds := [ip];
    if es != [] {
      var rest := WalkLeads(st, dirs, DirOf(st, ip)[Cut(es[0], DIRSIZ)], es[1..]);
      ds := [ip] + rest;
      forall i | 0 <= i < |es|
        ensures Entered(st, dirs, ds[i], es[i], ds[i + 1])
      {
        assert i > 0 ==> es[1..][i - 1] == es[i] && ds[i] == rest[i - 1];
      }
    }
  }

  /** A walk answers with an inode exactly if there is a chain of directories to it, and with none if there is not. */
  lemma WalkExactly(st: State, dirs: set<nat>, ip: nat, es: seq<seq<Byte>>)
    requires IsTree(st, dirs)
    ensures forall x: nat {:trigger Reaches(st, dirs, ip, es, x)} ::
              Walk(st, dirs, ip, es) == Some(x) <==> Reaches(st, dirs, ip, es, x)
    ensures Walk(st, dirs, ip, es) == None <==> forall x: nat :: !Reaches(st, dirs, ip, es, x)
  {
    forall ds | Leads(st, dirs, es, ds) && ds[0] == ip
      ensures Walk(st, dirs, ip, es) == Some(ds[|es|])
    {
      LeadsWalk(st, dirs, es, ds);
    }
    if Walk(st, dirs, ip, es).Some? {
      var ds := WalkLeads(st, dirs, ip, es);
      LeadsWalk(st, dirs, es, ds);
      assert Reaches(st, dirs, ip, es, ds[|es|]);
    }
  }

  /** What a path name is for: the inode its elements lead to; or, for the parent, the directory before the last one. */
  ghost predicate Names(st: State, dirs: set<nat>, ip: nat, es: seq<seq<Byte>>, parent: bool, x: nat)
    requires IsTree(st, dirs)
  {
    if parent then es != [] && x in dirs && Reaches(st, dirs, ip, es[..|es| - 1], x)
    else Reaches(st, dirs, ip, es, x)
  }

  lemma ResolveExactly(st: State, dirs: set<nat>, ip: nat, es: seq<seq<Byte>>, parent: bool)
    requires IsTree(st, dirs)
    ensures forall x: nat {:trigger Names(st, dirs, ip, es, parent, x)} ::
              Resolve(st, dirs, ip, es, parent) == Some(x) <==> Names(st, dirs, ip, es, parent, x)
    ensures Resolve(st, dirs, ip, es, parent) == None <==> forall x: nat :: !Names(st, dirs, ip, es, parent, x)
  {
    var r, front := Resolve(st, dirs, ip, es, parent), if parent && es != [] then es[..|es| - 1] else es;
    WalkExactly(st, dirs, ip, front);
    if r.Some? {
      assert Names(st, dirs, ip, es, parent, r.value);
    }
  }

  lemma {:induction false} CutShort(e: seq<Byte>, n: nat, m: nat)
    requires n <= m
    ensures Cut(e[..Min(m, |e|)], n) == Cut(e, n)
    decreases |e|
  {
    if n > 0 && e != [] && e[0] != 0 {
      CutShort(e[1..], n - 1, m - 1);
      assert e[..Min(m, |e|)][1..] == e[1..][..Min(m - 1, |e| - 1)];
    }
  }

  lemma ResolveStep(st: State, dirs: set<nat>, ip: nat, elems: seq<seq<Byte>>, parent: bool)
    requires IsTree(st, dirs) && elems != []
    ensures ip !in dirs ==> Resolve(st, dirs, ip, elems, parent) == None
    ensures ip in dirs && parent && |elems| == 1 ==> Resolve(st, dirs, ip, elems, parent) == Some(ip)
    ensures ip in dirs && !(parent && |elems| == 1) ==>
      Resolve(st, dirs, ip, elems, parent) ==
        if Cut(elems[0], DIRSIZ) !in DirOf(st, ip) then None
        else Resolve(st, dirs, DirOf(st, ip)[Cut(elems[0], DIRSIZ)], elems[1..], parent)
  {
    if parent && |elems| > 1 {
      assert elems[..|elems| - 1][1..] == elems[1..][..|elems| - 2];
    }
  }

  /** What is left of a list ends as the list does. */
  ghost predicate EndsAlike(es: seq<seq<Byte>>, elems: seq<seq<Byte>>) {
    es != [] ==> elems != [] && es[|es| - 1] == elems[|elems| - 1]
  }

  /**
    namex: from the root or the current directory, exactly the inode that the path's elements lead to, or for the parent
    the directory they lead to but for the last; none if and only if they lead nowhere.
   */
  method Namex(fs: Inodes, ghost dirs: set<nat>, isDir: nat -> bool, root: nat, cwd: nat, path: seq<Byte>, parent: bool)
    returns (r: Option<nat>, name: seq<Byte>)
    requires Files(fs.disk.g, fs.St()) && IsTree(fs.St(), dirs) && root in fs.inodes && cwd in fs.inodes
    requires forall n :: n in fs.inodes ==> (isDir(n) <==> n in dirs)
    modifies fs, fs.disk
    ensures fs.St() == old(fs.St())
    ensures r == Resolve(fs.St(), dirs, if path != [] && path[0] == SLASH then root else cwd, Elements(path), parent)
    ensures var start := if path != [] && path[0] == SLASH then root else cwd;
      && (forall x: nat {:trigger Names(fs.St(), dirs, start, Elements(path), parent, x)} ::
            r == Some(x) <==> Names(fs.St(), dirs, start, Elements(path), parent, x))
      && (r == None <==> forall x: nat :: !Names(fs.St(), dirs, start, Elements(path), parent, x))
    ensures parent && r.Some? ==>
      && Elements(path) != []
      && var last := Elements(path)[|Elements(path)| - 1]; name == last[..Min(DIRSIZ, |last|)]
  {
    ghost var st, elems := fs.St(), Elements(path);
    var ip := if path != [] && path[0] == SLASH then root else cwd;
    ghost var start := ip;
    ResolveExactly(st, dirs, start, elems, parent);
    var p := path;
    name := [];
    while true
      invariant fs.St() == st && ip in fs.inodes && EndsAlike(Elements(p), elems)
      invariant Resolve(st, dirs, ip, Elements(p), parent) == Resolve(st, dirs, start, elems, parent)
      decreases |Elements(p)|
    {
      var ok, nm, rest := SkipElem(p);
      if !ok {
        return if parent then None else Some(ip), name;
      }
      name := nm;
      ghost var es := Elements(p);
      ResolveStep(st, dirs, ip, es, parent);
      if !isDir(ip) {
        return None, name;
      }
      if parent && rest == [] {
        return Some(ip), name;
      }
      CutShort(es[0], DIRSIZ, DIRSIZ);
      var found, next, _ := DirLookup(fs, ip, name);
      if !found {
        return None, name;
      }
      ip, p := next, rest;
    }
  }
}
