/** fs/dir.c and lib/fizzstr.c: printing a dentry's path backwards into a buffer and resolving a path in place. */
module Paths {
  import opened Options

  const NUL := '\0'
  const MAX_FILE_NAME_LEN := 24

  // ---------- strings ----------

  // The place of the first c, or the length if there is none
  function IndexOf(s: seq<char>, c: char): (n: nat)
    ensures n <= |s| && (n < |s| ==> s[n] == c) && (forall k | 0 <= k < n :: s[k] != c)
  {
    if s == [] || s[0] == c then 0 else 1 + IndexOf(s[1..], c)
  }

  lemma IndexIs(s: seq<char>, c: char, n: nat)
    requires n <= |s| && (n < |s| ==> s[n] == c) && forall k | 0 <= k < n :: s[k] != c
    ensures IndexOf(s, c) == n
  {
  }

  // A C string: no NUL before its end
  predicate Text(s: seq<char>) {
    forall k | 0 <= k < |s| :: s[k] != NUL
  }

  // strncmp: it goes on past n equal characters to compare one more.
  function Strncmp(s: seq<char>, t: seq<char>, n: nat): int
    requires NUL in s && NUL in t
  {
    if s[0] != NUL && t[0] != NUL && s[0] == t[0] && n > 0 then
      assert s == [s[0]] + s[1..] && t == [t[0]] + t[1..];
      Strncmp(s[1..], t[1..], n - 1)
    else s[0] as int - t[0] as int
  }

  // s starts with the NUL-terminated string name.
  predicate Holds(s: seq<char>, name: seq<char>) {
    |name| < |s| && s[..|name|] == name && s[|name|] == NUL && Text(name)
  }

  // With the second name cut where it ends, strncmp is equality of whole names: a prefix is not enough. The
  // limit n is the length of that name, or larger than the first name.
  lemma {:induction false} StrncmpIsEquality(name: seq<char>, s: seq<char>, other: seq<char>, t: seq<char>, n: nat)
    requires Holds(s, name) && Holds(t, other) && (|other| <= n || |name| < n)
    ensures NUL in s && NUL in t && (Strncmp(s, t, n) == 0 <==> name == other)
  {
    assert s[|name|] in s && t[|other|] in t;
    if name == [] {
      assert s[0] == NUL;
      if other != [] { assert t[0] == other[0]; }
    } else if other == [] {
      assert t[0] == NUL && s[0] == name[0];
    } else {
      assert s[0] == name[0] && t[0] == other[0];
      assert name == [name[0]] + name[1..] && other == [other[0]] + other[1..];
      assert s[1..][..|name| - 1] == name[1..] && t[1..][..|other| - 1] == other[1..];
      StrncmpIsEquality(name[1..], s[1..], other[1..], t[1..], n - 1);
    }
  }

  // Without the cut even the right name is missed: the slash after it is compared as well.
  lemma {:induction false} UncutNameIsMissed(name: seq<char>, s: seq<char>, t: seq<char>)
    requires Holds(s, name) && NUL in t && |t| > |name| && t[..|name|] == name && t[|name|] == '/'
    ensures NUL in s && Strncmp(s, t, |name|) != 0
  {
    assert s[|name|] in s;
    if name != [] {
      assert s[0] == name[0] && t[0] == name[0] && t == [t[0]] + t[1..];
      assert s[1..][..|name| - 1] == name[1..] && t[1..][..|name| - 1] == name[1..];
      UncutNameIsMissed(name[1..], s[1..], t[1..]);
    }
  }

  // ---------- dentries ----------

  class Dentry {
    var fname: seq<char>    // char fname[MAX_FILE_NAME_LEN + 1]
    var fnameLen: nat
    var parent: Dentry
    var subdirs: seq<Dentry>
    // distance from the root
    ghost var depth: nat

    // The root directory
    constructor ()
      ensures parent == this && subdirs == [] && depth == 0
    {
      fname, fnameLen, subdirs, depth := ['/', NUL], 1, [], 0;
      parent := this;
    }

    ghost function Name(): seq<char>
      reads this
    {
      if fnameLen <= |fname| then fname[..fnameLen] else fname
    }
  }

  ghost predicate GoodName(name: seq<char>) {
    0 < |name| <= MAX_FILE_NAME_LEN && Text(name) && '/' !in name && name != "." && name != ".."
  }

  ghost predicate NameOk(d: Dentry)
    reads d
  {
    d.fnameLen < |d.fname| && d.fname[d.fnameLen] == NUL && GoodName(d.Name())
  }

  // The children of d are dentries of the tree one level down, with different good names.
  ghost predicate ChildrenOk(nodes: set<Dentry>, root: Dentry, d: Dentry)
    reads nodes, d
  {
    && (forall i | 0 <= i < |d.subdirs| ::
          var c := d.subdirs[i];
          c in nodes && c != root && c.parent == d && c.depth == d.depth + 1 && NameOk(c))
    && (forall i, j | 0 <= i < j < |d.subdirs| ::
          d.subdirs[i] in nodes && d.subdirs[j] in nodes ==> d.subdirs[i].Name() != d.subdirs[j].Name())
  }

  // The cached dentries form a tree.
  ghost predicate Tree(nodes: set<Dentry>, root: Dentry)
    reads nodes
  {
    && root in nodes && root.parent == root && root.depth == 0
    && (forall d | d in nodes :: ChildrenOk(nodes, root, d))
    && (forall d | d in nodes && d != root :: d.parent in nodes && d in d.parent.subdirs)
  }

  lemma Child(nodes: set<Dentry>, root: Dentry, d: Dentry)
    requires Tree(nodes, root) && d in nodes && d != root
    ensures d.parent in nodes && d.parent != d && d.depth == d.parent.depth + 1 && NameOk(d)
  {
    var p := d.parent;
    assert ChildrenOk(nodes, root, p);
    var i :| 0 <= i < |p.subdirs| && p.subdirs[i] == d;
  }

  // ---------- what a path means ----------

  ghost function FindChild(nodes: set<Dentry>, subs: seq<Dentry>, name: seq<char>): (c: Dentry?)
    requires forall i | 0 <= i < |subs| :: subs[i] in nodes
    reads nodes
    ensures c != null ==> c in nodes && c in subs && c.Name() == name
    ensures c == null ==> forall i | 0 <= i < |subs| :: subs[i].Name() != name
  {
    if subs == [] then null
    else if subs[0].Name() == name then subs[0]
    else FindChild(nodes, subs[1..], name)
  }

  ghost function Lookup(nodes: set<Dentry>, root: Dentry, d: Dentry, name: seq<char>): (c: Dentry?)
    requires Tree(nodes, root) && d in nodes
    reads nodes
    ensures c != null ==> c in nodes
  {
    assert ChildrenOk(nodes, root, d);
    if name == "." then d
    else if name == ".." then if d == root then root else d.parent
    else FindChild(nodes, d.subdirs, name)
  }

  // Where the rest s of a path leads from d: component by component, null at the first one missing.
  ghost function Walk(nodes: set<Dentry>, root: Dentry, d: Dentry, s: seq<char>): (c: Dentry?)
    requires Tree(nodes, root) && d in nodes
    reads nodes
    ensures c != null ==> c in nodes
    decreases |s|
  {
    if s == [] then d
    else
      var n := IndexOf(s, '/');
      var c := Lookup(nodes, root, d, s[..n]);
      if n == |s| || c == null then c else Walk(nodes, root, c, s[n + 1..])
  }

  lemma WalkStep(nodes: set<Dentry>, root: Dentry, d: Dentry, s: seq<char>)
    requires Tree(nodes, root) && d in nodes
    ensures s == [] ==> Walk(nodes, root, d, s) == d
    ensures s != [] ==>
              var n := IndexOf(s, '/');
              var c := Lookup(nodes, root, d, s[..n]);
              Walk(nodes, root, d, s) == if n == |s| || c == null then c else Walk(nodes, root, c, s[n + 1..])
  {
  }

  // The directory in which the walk looks up its last component, and where that component starts.
  ghost function LastDir(nodes: set<Dentry>, root: Dentry, d: Dentry, s: seq<char>): (p: Dentry)
    requires Tree(nodes, root) && d in nodes && s != []
    reads nodes
    ensures p in nodes
    decreases |s|
  {
    var n := IndexOf(s, '/');
    if n == |s| then d
    else
      var c := Lookup(nodes, root, d, s[..n]);
      if c == null || n + 1 == |s| then d else LastDir(nodes, root, c, s[n + 1..])
  }

  ghost function LastAt(nodes: set<Dentry>, root: Dentry, d: Dentry, s: seq<char>): (at: nat)
    requires Tree(nodes, root) && d in nodes && s != []
    reads nodes
    ensures at < |s|
    decreases |s|
  {
    var n := IndexOf(s, '/');
    if n == |s| then 0
    else
      var c := Lookup(nodes, root, d, s[..n]);
      if c == null || n + 1 == |s| then 0 else n + 1 + LastAt(nodes, root, c, s[n + 1..])
  }

  lemma LastStep(nodes: set<Dentry>, root: Dentry, d: Dentry, s: seq<char>)
    requires Tree(nodes, root) && d in nodes && s != []
    ensures var n := IndexOf(s, '/');
            var c := Lookup(nodes, root, d, s[..n]);
            if n == |s| || c == null || n + 1 == |s| then
              LastDir(nodes, root, d, s) == d && LastAt(nodes, root, d, s) == 0
            else LastDir(nodes, root, d, s) == LastDir(nodes, root, c, s[n + 1..])
                 && LastAt(nodes, root, d, s) == n + 1 + LastAt(nodes, root, c, s[n + 1..])
  {
  }

  // The walk ends with that lookup: a missing last component is missing from that directory.
  lemma {:induction false} WalkIsLastLookup(nodes: set<Dentry>, root: Dentry, d: Dentry, s: seq<char>)
    requires Tree(nodes, root) && d in nodes && s != []
    ensures var name := s[LastAt(nodes, root, d, s)..];
            Walk(nodes, root, d, s) == Lookup(nodes, root, LastDir(nodes, root, d, s), name[..IndexOf(name, '/')])
    decreases |s|
  {
    hide Tree, IndexOf, Lookup, Walk, LastDir, LastAt;
    WalkStep(nodes, root, d, s);
    LastStep(nodes, root, d, s);
    var n := IndexOf(s, '/');
    assert s[0..] == s;
    if n < |s| {
      var c := Lookup(nodes, root, d, s[..n]);
      if c != null {
        WalkStep(nodes, root, c, s[n + 1..]);
      }
      if c != null && n + 1 < |s| {
        WalkIsLastLookup(nodes, root, c, s[n + 1..]);
        var at := LastAt(nodes, root, c, s[n + 1..]);
        assert s[n + 1..][at..] == s[n + 1 + at..];
      }
    }
  }

  // ---------- what get_path prints ----------

  ghost function Printed(nodes: set<Dentry>, root: Dentry, d: Dentry): seq<char>
    requires Tree(nodes, root) && d in nodes
    reads nodes
    decreases d.depth
  {
    if d == root then []
    else
      Child(nodes, root, d);
      Printed(nodes, root, d.parent) + "/" + d.Name()
  }

  lemma PrintedStep(nodes: set<Dentry>, root: Dentry, d: Dentry)
    requires Tree(nodes, root) && d in nodes
    ensures Printed(nodes, root, root) == []
    ensures d != root ==>
              d.parent in nodes && Printed(nodes, root, d) == Printed(nodes, root, d.parent) + "/" + d.Name()
    ensures d != root ==> d.fnameLen < |d.fname| && d.Name() == d.fname[..d.fnameLen]
  {
    if d != root {
      Child(nodes, root, d);
    }
  }

  ghost function PathTo(nodes: set<Dentry>, root: Dentry, d: Dentry): seq<char>
    requires Tree(nodes, root) && d in nodes
    reads nodes
  {
    if d == root then "/" else Printed(nodes, root, d)
  }

  // Walking a printed path and on: the walk passes through d.
  lemma {:induction false} WalkPrinted(nodes: set<Dentry>, root: Dentry, d: Dentry, rest: seq<char>)
    requires Tree(nodes, root) && d in nodes && d != root && (rest == [] || rest[0] == '/')
    ensures var s := Printed(nodes, root, d) + rest;
            && |s| > 0 && s[0] == '/'
            && Walk(nodes, root, root, s[1..]) == if rest == [] then d else Walk(nodes, root, d, rest[1..])
    decreases d.depth
  {
    hide Tree, Walk, NameOk, Printed;
    Child(nodes, root, d);
    PrintedStep(nodes, root, d);
    var p, name := d.parent, d.Name();
    var tail := "/" + name + rest;
    assert Printed(nodes, root, d) + rest == Printed(nodes, root, p) + tail;
    WalkName(nodes, root, d, rest);
    assert tail[1..] == name + rest;
    if p != root {
      WalkPrinted(nodes, root, p, tail);
    } else {
      assert Printed(nodes, root, p) + tail == tail;
    }
  }

  // From its parent, d's name leads to d.
  lemma WalkName(nodes: set<Dentry>, root: Dentry, d: Dentry, rest: seq<char>)
    requires Tree(nodes, root) && d in nodes && d != root && (rest == [] || rest[0] == '/') && d.parent in nodes
    ensures Walk(nodes, root, d.parent, d.Name() + rest) == if rest == [] then d else Walk(nodes, root, d, rest[1..])
  {
    Child(nodes, root, d);
    var name, s := d.Name(), d.Name() + rest;
    forall k | 0 <= k < |name|
      ensures s[k] != '/'
    {
      assert s[k] == name[k] && name[k] in name;
    }
    IndexIs(s, '/', |name|);
    assert s[..|name|] == name;
    LookupChild(nodes, root, d);
    if rest != [] {
      assert s[|name| + 1..] == rest[1..];
    }
  }

  lemma LookupChild(nodes: set<Dentry>, root: Dentry, d: Dentry)
    requires Tree(nodes, root) && d in nodes && d != root && d.parent in nodes
    ensures Lookup(nodes, root, d.parent, d.Name()) == d
  {
    Child(nodes, root, d);
    var p := d.parent;
    assert ChildrenOk(nodes, root, p);
    var c := FindChild(nodes, p.subdirs, d.Name());
    var i :| 0 <= i < |p.subdirs| && p.subdirs[i] == d;
    assert c != null;
    var j :| 0 <= j < |p.subdirs| && p.subdirs[j] == c;
    assert i == j;
  }

  // Resolving the path of a dentry gives the dentry.
  lemma PathRoundTrip(nodes: set<Dentry>, root: Dentry, d: Dentry)
    requires Tree(nodes, root) && d in nodes
    ensures var s := PathTo(nodes, root, d); |s| > 0 && s[0] == '/' && Walk(nodes, root, root, s[1..]) == d
  {
    if d != root {
      WalkPrinted(nodes, root, d, []);
      assert Printed(nodes, root, d) + [] == Printed(nodes, root, d);
    }
  }

  // Different dentries have different paths.
  lemma PathsDiffer(nodes: set<Dentry>, root: Dentry, d: Dentry, e: Dentry)
    requires Tree(nodes, root) && d in nodes && e in nodes && d != e
    ensures PathTo(nodes, root, d) != PathTo(nodes, root, e)
  {
    PathRoundTrip(nodes, root, d);
    PathRoundTrip(nodes, root, e);
  }

  // ---------- get_path ----------

  // s with piece written over it from at on
  function Put(s: seq<char>, at: nat, piece: seq<char>): (r: seq<char>)
    requires at + |piece| <= |s|
    ensures |r| == |s|
  {
    s[..at] + piece + s[at + |piece|..]
  }

  // Writing one more piece in front is writing both at once.
  lemma PutInFront(s: seq<char>, at: nat, done: seq<char>, piece: seq<char>)
    requires at + |done| <= |s| && |piece| <= at
    ensures Put(Put(s, at, done), at - |piece|, piece) == Put(s, at - |piece|, piece + done)
    ensures Put(s, at, []) == s
  {
  }

  // buffer is an index into buf; what is printed so far lies from it on.
  method Prepend(buf: array<char>, buffer: nat, bufLen: nat, str: seq<char>, nameLen: nat)
    returns (buffer': nat, bufLen': nat)
    requires nameLen <= |str| && nameLen <= buffer <= buf.Length && nameLen <= bufLen
    modifies buf
    ensures buffer' == buffer - nameLen && bufLen' == bufLen - nameLen
    ensures buf[..] == Put(old(buf[..]), buffer', str[..nameLen])
  {
    bufLen' := bufLen - nameLen;
    buffer' := buffer - nameLen;
    var i := 0;
    while i < nameLen
      invariant 0 <= i <= nameLen
      invariant buf[..] == Put(old(buf[..]), buffer', str[..i])
    {
      buf[buffer' + i] := str[i];
      i := i + 1;
    }
  }

  // The loop ends because every step goes one level up.
  method GetPath(d0: Dentry, buf: array<char>, buffer: nat, bufLen: nat, ghost nodes: set<Dentry>, ghost root: Dentry)
    returns (buffer': nat, bufLen': nat)
    requires Tree(nodes, root) && d0 in nodes && buffer <= buf.Length && buffer <= bufLen
    requires |PathTo(nodes, root, d0)| <= buffer
    modifies buf
    ensures buffer' == buffer - |PathTo(nodes, root, d0)| && bufLen' == bufLen - |PathTo(nodes, root, d0)|
    ensures buf[..] == Put(old(buf[..]), buffer', PathTo(nodes, root, d0))
  {
    hide Tree, Printed, NameOk, Put;
    var d := d0;
    buffer', bufLen' := buffer, bufLen;
    PrintedStep(nodes, root, d);
    OnlyRoot(nodes, root, d);
    assert "/"[..1] == "/";
    if d.parent == d {
      buffer', bufLen' := Prepend(buf, buffer', bufLen', "/", 1);
      return;
    }
    ghost var was, done: seq<char> := buf[..], [];
    PutInFront(was, buffer, [], []);
    while d.parent != d
      invariant d in nodes && Printed(nodes, root, d0) == Printed(nodes, root, d) + done
      invariant buffer' + |done| == buffer && bufLen' + |done| == bufLen
      invariant buf[..] == Put(was, buffer', done)
      decreases d.depth
    {
      OnlyRoot(nodes, root, d);
      Child(nodes, root, d);
      PrintedStep(nodes, root, d);
      ghost var name := d.Name();
      PutInFront(was, buffer', done, name);
      buffer', bufLen' := Prepend(buf, buffer', bufLen', d.fname, d.fnameLen);
      done := name + done;
      PutInFront(was, buffer', done, "/");
      buffer', bufLen' := Prepend(buf, buffer', bufLen', "/", 1);
      done := "/" + done;
      d := d.parent;
    }
    OnlyRoot(nodes, root, d);
    assert done == PathTo(nodes, root, d0);
  }

  // Only the root is its own parent.
  lemma OnlyRoot(nodes: set<Dentry>, root: Dentry, d: Dentry)
    requires Tree(nodes, root) && d in nodes
    ensures d.parent == d <==> d == root
  {
    if d != root {
      Child(nodes, root, d);
    }
  }

  // ---------- parse_path ----------

  // lib/fizzstr.c over an array: strchr stops at the NUL.
  method Strchr(path: array<char>, at: nat, c: char, ghost z: nat) returns (found: bool, i: nat)
    requires at <= z < path.Length && path[z] == NUL && Text(path[at..z]) && c != NUL
    ensures i == at + IndexOf(path[at..z], c) && (found <==> i < z)
  {
    i := at;
    while path[i] != NUL && path[i] != c
      invariant at <= i <= z && forall k | at <= k < i :: path[k] != c
      decreases z - i
    {
      assert i < z;
      i := i + 1;
    }
    assert i < z ==> path[at..z][i - at] == path[i];
    IndexIs(path[at..z], c, i - at);
    found := path[i] == c;
  }

  // strlen gives up, with -1, at 100 characters.
  method Strlen(path: array<char>, at: nat, ghost z: nat) returns (len: int)
    requires at <= z < path.Length && path[z] == NUL && Text(path[at..z])
    ensures len == if z - at < 100 then z - at else -1
  {
    len := 0;
    while path[at + len] != NUL
      invariant 0 <= len <= z - at && len < 100
      decreases z - at - len
    {
      assert at + len < z;
      len := len + 1;
      if len >= 100 {
        return -1;
      }
    }
  }

  // One turn of the comparing loop, or its end.
  lemma StrncmpFrom(s: seq<char>, t: seq<char>, i: nat, m: nat)
    requires i < |s| && i < |t| && NUL in s[i..] && NUL in t[i..]
    ensures if s[i] != NUL && t[i] != NUL && s[i] == t[i] && m > 0 then
              i + 1 < |s| && i + 1 < |t| && NUL in s[i + 1..] && NUL in t[i + 1..]
              && Strncmp(s[i..], t[i..], m) == Strncmp(s[i + 1..], t[i + 1..], m - 1)
            else Strncmp(s[i..], t[i..], m) == s[i] as int - t[i] as int
  {
    assert s[i..] == [s[i]] + s[i + 1..] && t[i..] == [t[i]] + t[i + 1..];
    assert s[i..][1..] == s[i + 1..] && t[i..][1..] == t[i + 1..];
  }

  method StrncmpAt(s: seq<char>, path: array<char>, at: nat, n: nat, ghost z: nat) returns (r: int)
    requires NUL in s && at <= z < path.Length && path[z] == NUL
    ensures NUL in path[at..] && r == Strncmp(s, path[at..], n)
  {
    hide Strncmp;
    var i: nat, m := 0, n;
    ghost var t := path[at..];
    assert t[z - at] == NUL;
    assert s[0..] == s && t[0..] == t;
    while s[i] != NUL && path[at + i] != NUL && s[i] == path[at + i] && m > 0
      invariant m >= 0 && i < |s| && i < |t| && NUL in s[i..] && NUL in t[i..]
      invariant Strncmp(s, t, n) == Strncmp(s[i..], t[i..], m)
      decreases m
    {
      StrncmpFrom(s, t, i, m);
      i := i + 1;
      m := m - 1;
    }
    StrncmpFrom(s, t, i, m);
    r := s[i] as int - path[at + i] as int;
  }

  // The cached part of search_dentry; the name is path[at..e], cut at e. len is its length as an unsigned
  // short, or 65535 for the length -1 that strlen gives for 100 characters and more.
  method SearchDentry(parent: Dentry, path: array<char>, at: nat, len: nat, ghost e: nat,
                      ghost nodes: set<Dentry>, ghost root: Dentry) returns (child: Dentry?)
    requires Tree(nodes, root) && parent in nodes
    requires at <= e < path.Length && path[e] == NUL && Text(path[at..e])
    requires len == e - at || (e - at >= 100 && len == 65535)
    ensures child == Lookup(nodes, root, parent, path[at..e])
  {
    hide Tree, Strncmp, Holds, Lookup, FindChild;
    ghost var name := path[at..e];
    LookupIs(nodes, root, parent, name);
    Dots(path[..], at, e);
    assert path[..][at..e] == name;
    if len == 1 && path[at] == '.' {
      return parent;
    } else if len == 2 && path[at] == '.' && path[at + 1] == '.' {
      OnlyRoot(nodes, root, parent);
      return parent.parent;
    }
    var i := 0;
    assert parent.subdirs[0..] == parent.subdirs;
    while i < |parent.subdirs|
      invariant 0 <= i <= |parent.subdirs|
      invariant FindChild(nodes, parent.subdirs, name) == FindChild(nodes, parent.subdirs[i..], name)
    {
      var subdir := parent.subdirs[i];
      FindFrom(nodes, parent.subdirs, i, name);
      ChildName(nodes, root, parent, i);
      CutName(path[..], at, e);
      StrncmpIsEquality(subdir.Name(), subdir.fname, name, path[at..], len);
      var ret := StrncmpAt(subdir.fname, path, at, len, e);
      if ret == 0 {
        return subdir;
      }
      i := i + 1;
    }
    FindFrom(nodes, parent.subdirs, i, name);
    return null;
  }

  lemma FindFrom(nodes: set<Dentry>, subs: seq<Dentry>, i: nat, name: seq<char>)
    requires i <= |subs| && forall k | 0 <= k < |subs| :: subs[k] in nodes
    ensures FindChild(nodes, subs[i..], name) ==
            if i == |subs| then null
            else if subs[i].Name() == name then subs[i]
            else FindChild(nodes, subs[i + 1..], name)
  {
    if i < |subs| {
      assert subs[i..][1..] == subs[i + 1..];
    }
  }

  lemma Dots(path: seq<char>, at: nat, e: nat)
    requires at <= e < |path|
    ensures path[at..e] == "." <==> e == at + 1 && path[at] == '.'
    ensures path[at..e] == ".." <==> e == at + 2 && path[at] == '.' && path[at + 1] == '.'
  {
    if e == at + 2 {
      assert path[at..e] == [path[at], path[at + 1]];
    } else if e == at + 1 {
      assert path[at..e] == [path[at]];
    }
  }

  lemma CutName(path: seq<char>, at: nat, e: nat)
    requires at <= e < |path| && path[e] == NUL && Text(path[at..e])
    ensures Holds(path[at..], path[at..e])
  {
    assert path[at..][..e - at] == path[at..e];
  }

  lemma ChildName(nodes: set<Dentry>, root: Dentry, d: Dentry, i: nat)
    requires Tree(nodes, root) && d in nodes && i < |d.subdirs|
    ensures d.subdirs[i] in nodes
    ensures Holds(d.subdirs[i].fname, d.subdirs[i].Name()) && 0 < |d.subdirs[i].Name()| <= MAX_FILE_NAME_LEN
  {
    assert ChildrenOk(nodes, root, d);
  }

  lemma LookupIs(nodes: set<Dentry>, root: Dentry, d: Dentry, name: seq<char>)
    requires Tree(nodes, root) && d in nodes
    ensures d.parent in nodes && (d == root ==> d.parent == root)
        && forall i | 0 <= i < |d.subdirs| :: d.subdirs[i] in nodes
    ensures Lookup(nodes, root, d, name) ==
            if name == "." then d else if name == ".." then d.parent else FindChild(nodes, d.subdirs, name)
  {
    assert ChildrenOk(nodes, root, d);
  }

  // path with the slashes from b up to e cut
  function Cut(path: seq<char>, b: nat, e: nat): (r: seq<char>)
    requires b <= e <= |path|
    ensures |r| == |path|
  {
    seq(|path|, k requires 0 <= k < |path| => if b <= k < e && path[k] == '/' then NUL else path[k])
  }

  lemma CutAt(path: seq<char>, b: nat, e: nat)
    requires b <= e <= |path|
    ensures forall k | 0 <= k < |path| :: Cut(path, b, e)[k] == if b <= k < e && path[k] == '/' then NUL else path[k]
  {
  }

  lemma CutNothing(path: seq<char>, b: nat)
    requires b <= |path|
    ensures Cut(path, b, b) == path
  {
  }

  // One component on: the piece up to the next slash, that slash cut if there is one.
  lemma CutStep(path: seq<char>, b: nat, next: nat, z: nat)
    requires b <= next <= z < |path| && path[z] == NUL
    ensures var text := path[next..z];
            var e := next + IndexOf(text, '/');
            && next <= e <= z && text[..e - next] == path[next..e]
            && (e == z ==> Cut(path, b, next) == Cut(path, b, z))
            && (e < z ==> Cut(path, b, next)[e := NUL] == Cut(path, b, e + 1) && text[e - next + 1..] == path[e + 1..z])
  {
    var text := path[next..z];
    var e := next + IndexOf(text, '/');
    forall k | next <= k < e
      ensures path[k] != '/'
    {
      assert text[k - next] == path[k];
    }
  }

  // What follows in a path that is cut before next
  lemma CutRest(path: seq<char>, b: nat, next: nat, z: nat)
    requires b <= next <= z < |path| && Text(path[b..z])
    ensures Cut(path, b, next)[next..z] == path[next..z] && Text(path[next..z]) && Cut(path, b, next)[z] == path[z]
    ensures next < z ==> Cut(path, b, next)[next] != NUL
  {
    forall k | next <= k < z
      ensures path[k] != NUL
    {
      assert path[b..z][k - b] == path[k];
    }
  }

  // What parse_path leaves in search_res for a text that starts at b: the last directory looked in, and the
  // last component looked up by place and length, -1 for a length of 100 and more at the end of the path.
  // next is search_res.nextdir as an index, None for the null pointer.
  ghost predicate Ended(nodes: set<Dentry>, root: Dentry, start: Dentry, text: seq<char>, b: nat,
                        parent: Dentry, cur: nat, curLen: int, next: Option<nat>)
    requires Tree(nodes, root) && start in nodes && text != []
    reads nodes
  {
    var at := LastAt(nodes, root, start, text);
    var n := IndexOf(text[at..], '/');
    && parent == LastDir(nodes, root, start, text) && cur == b + at
    && curLen == (if at + n == |text| && n >= 100 then -1 else n)
    && next == if at + n == |text| then None else Some(cur + n + 1)
  }

  // More components to come: the rest decides.
  ghost predicate Continues(nodes: set<Dentry>, root: Dentry, start: Dentry, text: seq<char>, child: Dentry,
                            rest: seq<char>)
    requires Tree(nodes, root) && start in nodes && child in nodes && text != [] && rest != []
    reads nodes
  {
    && LastDir(nodes, root, start, text) == LastDir(nodes, root, child, rest)
    && LastAt(nodes, root, start, text) == |text| - |rest| + LastAt(nodes, root, child, rest)
  }

  // One component on, the loop either goes on or has ended.
  lemma GoesOn(nodes: set<Dentry>, root: Dentry, start: Dentry, text: seq<char>, b: nat, parent: Dentry,
               rest: seq<char>)
    requires Tree(nodes, root) && start in nodes && parent in nodes && text != [] && rest != [] && |rest| <= |text|
    requires text[|text| - |rest|..] == rest && Continues(nodes, root, start, text, parent, rest)
    ensures var n := IndexOf(rest, '/');
            var child := Lookup(nodes, root, parent, rest[..n]);
            var cur := b + |text| - |rest|;
            if n < |rest| && n + 1 < |rest| && child != null then
              Continues(nodes, root, start, text, child, rest[n + 1..])
            else Ended(nodes, root, start, text, b, parent, cur, if n == |rest| && n >= 100 then -1 else n,
                       if n == |rest| then None else Some(cur + n + 1))
  {
    hide Tree, Lookup, IndexOf, LastAt, LastDir;
    LastStep(nodes, root, parent, rest);
  }

  lemma TextPart(s: seq<char>, n: nat)
    requires Text(s) && n <= |s|
    ensures Text(s[..n])
  {
  }

  // parse_path between two rounds: either the walk goes on from child through the rest, or it has ended.
  ghost predicate Underway(nodes: set<Dentry>, root: Dentry, start: Dentry, text: seq<char>, b: nat,
                           parent: Dentry, child: Dentry?, cur: nat, curLen: int, next: Option<nat>, rest: seq<char>)
    requires Tree(nodes, root) && start in nodes
    reads nodes
  {
    && (child == null || child in nodes) && |rest| <= |text| && text[|text| - |rest|..] == rest
    && Walk(nodes, root, start, text) == (if next.Some? && child != null then Walk(nodes, root, child, rest) else child)
    && (text == [] ==> parent == child == start && next == Some(b))
    && (text != [] ==>
          if next.Some? && child != null && rest != [] then Continues(nodes, root, start, text, child, rest)
          else Ended(nodes, root, start, text, b, parent, cur, curLen, next))
  }

  lemma SetsOut(nodes: set<Dentry>, root: Dentry, start: Dentry, text: seq<char>, b: nat)
    requires Tree(nodes, root) && start in nodes
    ensures Underway(nodes, root, start, text, b, start, start, b, 0, Some(b), text)
  {
    hide Tree, Walk, LastAt, LastDir, Ended;
  }

  // The round that looks up the first component of rest in parent
  lemma Round(nodes: set<Dentry>, root: Dentry, start: Dentry, text: seq<char>, b: nat, parent0: Dentry, parent: Dentry,
              cur0: nat, curLen0: int, next0: Option<nat>, rest: seq<char>, curLen: int, next: Option<nat>)
    requires Tree(nodes, root) && start in nodes && rest != [] && next0.Some?
    requires Underway(nodes, root, start, text, b, parent0, parent, cur0, curLen0, next0, rest)
    requires var n := IndexOf(rest, '/');
             && curLen == (if n == |rest| && n >= 100 then -1 else n)
             && next == if n == |rest| then None else Some(b + |text| - |rest| + n + 1)
    ensures parent in nodes
    ensures var n := IndexOf(rest, '/');
            Underway(nodes, root, start, text, b, parent, Lookup(nodes, root, parent, rest[..n]), b + |text| - |rest|,
                     curLen, next,
                     if n == |rest| then [] else rest[n + 1..])
  {
    hide Tree, Walk, Lookup, LastAt, LastDir, IndexOf, Ended, Continues;
    WalkStep(nodes, root, parent, rest);
    GoesOn(nodes, root, start, text, b, parent, rest);
    LaterPart(text, rest, IndexOf(rest, '/'));
  }

  lemma LaterPart(text: seq<char>, rest: seq<char>, n: nat)
    requires |rest| <= |text| && text[|text| - |rest|..] == rest && n <= |rest| && rest != []
    ensures text != []
    ensures n < |rest| ==> text[|text| - |rest[n + 1..]|..] == rest[n + 1..]
    ensures text[|text| - 0..] == []
  {
  }

  // A length as search_dentry's unsigned short parameter takes it
  function AsShort(n: int): nat {
    n % 0x1_0000
  }

  // The next component: its slash cut, its length taken.
  method CutComponent(path: array<char>, cur: nat, ghost z: nat) returns (curLen: int, next: Option<nat>, ghost e: nat)
    requires cur <= z < path.Length && path[z] == NUL && Text(path[cur..z])
    modifies path
    ensures e == cur + IndexOf(old(path[cur..z]), '/')
        && path[..] == if e < z then old(path[..])[e := NUL] else old(path[..])
    ensures curLen == (if e == z && e - cur >= 100 then -1 else e - cur) && next == if e == z then None else Some(e + 1)
    ensures path[e] == NUL && Text(path[cur..e]) && path[cur..e] == old(path[cur..z])[..e - cur]
    ensures path.Length <= 0x1_0000 ==> AsShort(curLen) == if curLen == -1 then 65535 else curLen
  {
    hide IndexOf;
    ghost var rest := path[cur..z];
    var found, i := Strchr(path, cur, '/', z);
    e := i;
    TextPart(rest, e - cur);
    if found {
      curLen := i - cur;
      path[i] := NUL;
      next := Some(i + 1);
    } else {
      next := None;
      curLen := Strlen(path, cur, z);
    }
    assert path[cur..e] == rest[..e - cur];
  }

  // The loop of parse_path over path[b..z], from start. cut: how far slashes have been cut.
  method WalkPath(path: array<char>, b: nat, ghost z: nat, start: Dentry, ghost nodes: set<Dentry>, ghost root: Dentry)
    returns (parent: Dentry, child: Dentry?, cur: nat, curLen: int, next: Option<nat>, ghost cut: nat)
    requires Tree(nodes, root) && start in nodes && b <= z < path.Length <= 0x1_0000 && path[z] == NUL
        && Text(path[b..z])
    modifies path
    ensures child == Walk(nodes, root, start, old(path[b..z]))
    ensures b <= cut <= z && path[..] == Cut(old(path[..]), b, cut)
    ensures forall k | 0 <= k < path.Length ::
              path[k] == if b <= k < cut && old(path[k]) == '/' then NUL else old(path[k])
    ensures cut == if next.Some? then next.value else z
    ensures old(path[b..z]) == [] ==> parent == start && next == Some(b)
    ensures old(path[b..z]) != [] ==> Ended(nodes, root, start, old(path[b..z]), b, parent, cur, curLen, next)
  {
    hide Tree, Walk, Cut, Lookup, Text, IndexOf, Ended, Underway, AsShort;
    ghost var was, text := path[..], path[b..z];
    parent, child, cur, curLen, next, cut := start, start, b, 0, Some(b), b;
    CutNothing(was, b);
    SetsOut(nodes, root, start, text, b);
    while next.Some? && path[next.value] != NUL && child != null
      invariant cut == if next.Some? then next.value else z
      invariant b <= cut <= z && path[..] == Cut(was, b, cut) && (child == null || child in nodes)
      invariant Underway(nodes, root, start, text, b, parent, child, cur, curLen, next, was[cut..z])
      decreases z - cut, if next.Some? then 1 else 0
    {
      ghost var parent0, cur0, curLen0, next0 := parent, cur, curLen, next;
      parent := child;
      cur := next.value;
      CutRest(was, b, cur, z);
      CutStep(was, b, cur, z);
      ghost var rest := was[cur..z];
      assert path[cur..z] == rest;
      ghost var e;
      curLen, next, e := CutComponent(path, cur, z);
      cut := if e < z then e + 1 else z;
      Round(nodes, root, start, text, b, parent0, parent, cur0, curLen0, next0, rest, curLen, next);
      assert was[cut..z] == if e == z then [] else rest[e - cur + 1..];
      child := SearchDentry(parent, path, cur, AsShort(curLen), e, nodes, root);
    }
    CutAt(was, b, cut);
    CutRest(was, b, cut, z);
    WalkEnd(nodes, root);
    UnderwayAtEnd(nodes, root, start, text, b, parent, child, cur, curLen, next, was[cut..z]);
  }

  lemma UnderwayAtEnd(nodes: set<Dentry>, root: Dentry, start: Dentry, text: seq<char>, b: nat,
                      parent: Dentry, child: Dentry?, cur: nat, curLen: int, next: Option<nat>, rest: seq<char>)
    requires Tree(nodes, root) && start in nodes
    requires Underway(nodes, root, start, text, b, parent, child, cur, curLen, next, rest)
    requires next.None? || child == null || rest == []
    ensures child == Walk(nodes, root, start, text) && (text == [] ==> parent == start && next == Some(b))
    ensures text != [] ==> Ended(nodes, root, start, text, b, parent, cur, curLen, next)
  {
    hide Tree, Walk, Ended, Continues;
    WalkEnd(nodes, root);
  }

  lemma WalkEnd(nodes: set<Dentry>, root: Dentry)
    requires Tree(nodes, root)
    ensures forall d | d in nodes :: Walk(nodes, root, d, []) == d
  {
  }

  lemma TreeRoot(nodes: set<Dentry>, root: Dentry)
    requires Tree(nodes, root)
    ensures root in nodes
  {
  }

  // parse_path on the string at path[from..z]. base: the working directory, or the directory of an open file
  // (viaFd), which has to be a directory.
  method ParsePath(path: array<char>, from: nat, ghost z: nat, base: Dentry, viaFd: bool, baseIsDir: bool, root: Dentry,
                   ghost nodes: set<Dentry>)
    returns (ok: bool, parent: Dentry, child: Dentry?, cur: nat, curLen: int, next: Option<nat>)
    requires Tree(nodes, root) && base in nodes && from <= z < path.Length <= 0x1_0000 && path[z] == NUL
        && Text(path[from..z])
    modifies path
    ensures ok <==> old(path[from]) == '/' || !viaFd || baseIsDir
    ensures ok ==> var absolute := old(path[from]) == '/';
                   var start, b := if absolute then root else base, if absolute then from + 1 else from;
                   start in nodes && b <= z && child == Walk(nodes, root, start, old(path[b..z]))
                   && (old(path[b..z]) != [] ==>
                         Ended(nodes, root, start, old(path[b..z]), b, parent, cur, curLen, next))
  {
    hide Tree, Walk, Ended;
    TreeRoot(nodes, root);
    ghost var cut;
    if path[from] == '/' {
      assert from < z;
      TextTail(path[from..z]);
      assert path[from..z][1..] == path[from + 1..z];
      ok := true;
      parent, child, cur, curLen, next, cut := WalkPath(path, from + 1, z, root, nodes, root);
    } else if viaFd && !baseIsDir {
      ok, parent, child, cur, curLen, next := false, base, null, from, 0, None;
    } else {
      ok := true;
      parent, child, cur, curLen, next, cut := WalkPath(path, from, z, base, nodes, root);
    }
  }

  lemma TextTail(s: seq<char>)
    requires Text(s) && s != []
    ensures Text(s[1..])
  {
  }

  // Printing a dentry's path into a buffer and parsing it there, in place, finds the dentry.
  method PrintThenParse(d: Dentry, base: Dentry, buf: array<char>, root: Dentry, ghost nodes: set<Dentry>)
    returns (child: Dentry?)
    requires Tree(nodes, root) && d in nodes && base in nodes && |PathTo(nodes, root, d)| < buf.Length <= 0x1_0000
    modifies buf
    ensures child == d
  {
    hide Tree, Walk, Ended, PathTo;
    var pbuf, len := Prepend(buf, buf.Length, buf.Length, [NUL], 1);
    pbuf, len := GetPath(d, buf, pbuf, len, nodes, root);
    ghost var s := PathTo(nodes, root, d);
    assert buf[pbuf..buf.Length - 1] == s;
    PathIsText(nodes, root, d);
    PathRoundTrip(nodes, root, d);
    assert s[1..] == buf[pbuf + 1..buf.Length - 1];
    var ok, parent, cur, curLen, next;
    ok, parent, child, cur, curLen, next := ParsePath(buf, pbuf, buf.Length - 1, base, false, true, root, nodes);
  }

  lemma {:induction false} PrintedIsText(nodes: set<Dentry>, root: Dentry, d: Dentry)
    requires Tree(nodes, root) && d in nodes
    ensures Text(Printed(nodes, root, d))
    decreases d.depth
  {
    if d != root {
      Child(nodes, root, d);
      PrintedIsText(nodes, root, d.parent);
    }
  }

  lemma PathIsText(nodes: set<Dentry>, root: Dentry, d: Dentry)
    requires Tree(nodes, root) && d in nodes
    ensures Text(PathTo(nodes, root, d))
  {
    PrintedIsText(nodes, root, d);
  }
}
