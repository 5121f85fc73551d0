/** What resolving a path means, as laws: how one component, two paths in a row and a doubled slash resolve. */
module PathLaws {
  import opened Options
  import opened Paths

  // strncmp gives the difference at the first place, up to n itself, where the strings differ or end.
  lemma {:induction false} StrncmpAtDifference(s: seq<char>, t: seq<char>, n: nat, k: nat)
    requires NUL in s && NUL in t && k < |s| && k < |t| && k <= n
    requires s[..k] == t[..k] && Text(s[..k]) && (s[k] != t[k] || s[k] == NUL || k == n)
    ensures Strncmp(s, t, n) == s[k] as int - t[k] as int
  {
    if k > 0 {
      assert s[0] == s[..k][0] && t[0] == t[..k][0];
      assert s == [s[0]] + s[1..] && t == [t[0]] + t[1..];
      assert s[1..][..k - 1] == s[..k][1..] && t[1..][..k - 1] == t[..k][1..];
      assert forall i | 0 <= i < k - 1 :: s[1..][i] == s[..k][i + 1];
      StrncmpAtDifference(s[1..], t[1..], n - 1, k - 1);
    }
  }

  // ---------- one component ----------

  // "." is the directory, ".." its parent, the root being its own, and any other name the one child so called.
  lemma LookupMeans(nodes: set<Dentry>, root: Dentry, d: Dentry, name: seq<char>)
    requires Tree(nodes, root) && d in nodes
    ensures Lookup(nodes, root, d, ".") == d && Lookup(nodes, root, d, "..") == d.parent
    ensures d == root ==> d.parent == root
    ensures name != "." && name != ".." ==>
              var c := Lookup(nodes, root, d, name);
              && (c != null ==> c in d.subdirs && c in nodes && c.parent == d && c.Name() == name)
              && (c == null ==> forall e | e in nodes && e != root && e.parent == d :: e.Name() != name)
  {
    LookupIs(nodes, root, d, name);
    LookupIs(nodes, root, d, ".");
    LookupIs(nodes, root, d, "..");
    assert ChildrenOk(nodes, root, d);
    if name != "." && name != ".." && FindChild(nodes, d.subdirs, name) == null {
      forall e | e in nodes && e != root && e.parent == d
        ensures e.Name() != name
      {
        assert e in d.subdirs;
      }
    }
  }

  lemma NoSlash(s: seq<char>)
    ensures '/' !in s <==> IndexOf(s, '/') == |s|
  {
    if IndexOf(s, '/') == |s| {
      assert forall k | 0 <= k < |s| :: s[k] != '/';
    } else {
      assert s[IndexOf(s, '/')] in s;
    }
  }

  // ---------- paths ----------

  // The empty path stays, a single name is looked up, and an empty component is never found.
  lemma WalkShort(nodes: set<Dentry>, root: Dentry, d: Dentry, s: seq<char>)
    requires Tree(nodes, root) && d in nodes
    ensures Walk(nodes, root, d, []) == d
    ensures s != [] && '/' !in s ==> Walk(nodes, root, d, s) == Lookup(nodes, root, d, s)
    ensures Walk(nodes, root, d, "/" + s) == null
  {
    hide Tree, Lookup;
    WalkStep(nodes, root, d, []);
    WalkStep(nodes, root, d, s);
    NoSlash(s);
    assert s[..|s|] == s;
    WalkStep(nodes, root, d, "/" + s);
    IndexIs("/" + s, '/', 0);
    EmptyName(nodes, root, d);
    assert ("/" + s)[..0] == [];
  }

  lemma EmptyName(nodes: set<Dentry>, root: Dentry, d: Dentry)
    requires Tree(nodes, root) && d in nodes
    ensures Lookup(nodes, root, d, []) == null
  {
    LookupIs(nodes, root, d, []);
    assert ChildrenOk(nodes, root, d);
  }

  lemma IndexInLonger(s: seq<char>, t: seq<char>)
    requires IndexOf(s, '/') < |s|
    ensures IndexOf(s + t, '/') == IndexOf(s, '/')
  {
    IndexIs(s + t, '/', IndexOf(s, '/'));
  }

  lemma IndexOfJoint(s: seq<char>, t: seq<char>)
    requires IndexOf(s, '/') == |s|
    ensures IndexOf(s + "/" + t, '/') == |s|
  {
    IndexIs(s + "/" + t, '/', |s|);
  }

  // One path behind another: the second is walked from where the first has led. A first path that ends with a
  // slash already has its own.
  lemma {:induction false} WalkJoins(nodes: set<Dentry>, root: Dentry, d: Dentry, s: seq<char>, t: seq<char>)
    requires Tree(nodes, root) && d in nodes
    requires s != [] && s[|s| - 1] != '/'
    ensures var c := Walk(nodes, root, d, s);
            Walk(nodes, root, d, s + "/" + t) == if c == null then null else Walk(nodes, root, c, t)
    decreases |s|
  {
    hide Tree, Lookup, Walk, IndexOf;
    var n, path := IndexOf(s, '/'), s + "/" + t;
    WalkStep(nodes, root, d, s);
    WalkStep(nodes, root, d, path);
    assert path[..n] == s[..n];
    if n == |s| {
      IndexOfJoint(s, t);
      assert path[n + 1..] == t;
    } else {
      assert path == s + ("/" + t);
      IndexInLonger(s, "/" + t);
      assert path[n + 1..] == s[n + 1..] + "/" + t;
      var c := Lookup(nodes, root, d, s[..n]);
      if c != null {
        WalkJoins(nodes, root, c, s[n + 1..], t);
      }
    }
  }

  // ---------- where the walk ends ----------

  // No component follows the one at from: it ends the path, but for a slash, or is missing.
  ghost predicate IsLast(nodes: set<Dentry>, root: Dentry, p: Dentry, rest: seq<char>)
    requires Tree(nodes, root) && p in nodes
    reads nodes
  {
    var n := IndexOf(rest, '/');
    n + 1 >= |rest| || Lookup(nodes, root, p, rest[..n]) == null
  }

  lemma LastIff(nodes: set<Dentry>, root: Dentry, p: Dentry, rest: seq<char>)
    requires Tree(nodes, root) && p in nodes
    ensures var n := IndexOf(rest, '/');
            IsLast(nodes, root, p, rest) <==>
            n == |rest| || Lookup(nodes, root, p, rest[..n]) == null || n + 1 == |rest|
  {
  }

  // The component reported is the first with none behind it that is looked up, and the directory is where the
  // path up to it leads.
  lemma {:induction false} LastIsReached(nodes: set<Dentry>, root: Dentry, d: Dentry, s: seq<char>)
    requires Tree(nodes, root) && d in nodes && s != []
    ensures var p, at := LastDir(nodes, root, d, s), LastAt(nodes, root, d, s);
            && IsLast(nodes, root, p, s[at..])
            && (at == 0 ==> p == d)
            && (at > 0 ==> s[at - 1] == '/' && Walk(nodes, root, d, s[..at - 1]) == p)
    decreases |s|
  {
    hide Tree, Lookup, Walk, LastDir, LastAt, IndexOf, IsLast;
    LastStep(nodes, root, d, s);
    LastIff(nodes, root, d, s);
    var n := IndexOf(s, '/');
    assert s[0..] == s;
    if !IsLast(nodes, root, d, s) {
      var c, rest := Lookup(nodes, root, d, s[..n]), s[n + 1..];
      LastIsReached(nodes, root, c, rest);
      var at := LastAt(nodes, root, c, rest);
      assert rest[at..] == s[n + 1 + at..];
      WalkFirst(nodes, root, d, s, n, at);
    }
  }

  // The path up to the slash before place n + 1 + at
  lemma WalkFirst(nodes: set<Dentry>, root: Dentry, d: Dentry, s: seq<char>, n: nat, at: nat)
    requires Tree(nodes, root) && d in nodes && n == IndexOf(s, '/') && n + 1 + at < |s|
    requires Lookup(nodes, root, d, s[..n]) != null
    ensures s[n] == '/'
    ensures at == 0 ==> Walk(nodes, root, d, s[..n]) == Lookup(nodes, root, d, s[..n])
    ensures at > 0 ==> s[n + at] == s[n + 1..][at - 1]
                       && Walk(nodes, root, d, s[..n + at])
                       == Walk(nodes, root, Lookup(nodes, root, d, s[..n]), s[n + 1..][..at - 1])
  {
    hide Tree, Lookup, Walk;
    EmptyName(nodes, root, d);
    var head := if at == 0 then s[..n] else s[..n + at];
    IndexIs(head, '/', n);
    WalkStep(nodes, root, d, head);
    assert head[..n] == s[..n];
    if at > 0 {
      assert head[n + 1..] == s[n + 1..][..at - 1];
    } else {
      assert s[..n] != [];
    }
  }

  // ---------- printed paths ----------

  lemma {:induction false} SlashesInPrinted(nodes: set<Dentry>, root: Dentry, d: Dentry)
    requires Tree(nodes, root) && d in nodes
    ensures multiset(Printed(nodes, root, d))['/'] == d.depth
    decreases d.depth
  {
    if d != root {
      Child(nodes, root, d);
      SlashesInPrinted(nodes, root, d.parent);
      PrintedStep(nodes, root, d);
      assert '/' !in multiset(d.Name());
    }
  }
}
