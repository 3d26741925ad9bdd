/** Archive member names as PurePosixPath reads them, and the two checks that
    keep a restore inside its destination (minit/backups.py, snapshots.py). */
module MemberPaths {
  import opened Results

  type Path = seq<string>

  /** A component a real POSIX directory entry can have. */
  predicate IsComponent(p: string) {
    p != "" && p != "." && p != ".." && '/' !in p
  }

  /** A relative path of real components. */
  predicate IsRealPath(p: Path) {
    forall i | 0 <= i < |p| :: IsComponent(p[i])
  }

  /** str.split("/"). */
  function Split(s: string): (r: Path)
    ensures r != []
  {
    if s == "" then [""]
    else
      var rest := Split(s[1..]);
      if s[0] == '/' then [""] + rest else [[s[0]] + rest[0]] + rest[1..]
  }

  /** "/".join. */
  function Join(p: Path): string {
    if p == [] then "" else if |p| == 1 then p[0] else p[0] + "/" + Join(p[1..])
  }

  /** PurePosixPath drops empty and "." components. */
  function DropDots(p: Path): (r: Path)
    ensures "" !in r && "." !in r
  {
    if p == [] then []
    else if p[0] == "" || p[0] == "." then DropDots(p[1..])
    else [p[0]] + DropDots(p[1..])
  }

  predicate IsAbsolute(name: string) {
    name != "" && name[0] == '/'
  }

  /** PurePosixPath(name).parts of a relative name. */
  function Parts(name: string): Path {
    DropDots(Split(name))
  }

  /** _safe_member_name in backups.py. */
  predicate SafeMemberName(name: string) {
    name != "" && !IsAbsolute(name) && ".." !in Parts(name)
  }

  /** _safe_member_path in snapshots.py; None is the SnapshotError. */
  function SafeMemberPath(name: string): Option<Path> {
    if IsAbsolute(name) || ".." in Parts(name) || Parts(name) == [] then None
    else if Parts(name)[0] == ".minit" || Parts(name)[0] == ".git" then None
    else Some(Parts(name))
  }

  // ----- containment --------------------------------------------------------

  /** How the file system walks the components of a name from a directory:
      empty and "." stay, ".." goes up, anything else goes down. */
  function Walk(at: Path, components: Path): Path
    decreases |components|
  {
    if components == [] then at
    else
      var c, rest := components[0], components[1..];
      if c == "" || c == "." then Walk(at, rest)
      else if c == ".." then Walk(if at == [] then [] else at[..|at| - 1], rest)
      else Walk(at + [c], rest)
  }

  lemma {:induction false} WalkWithoutUp(at: Path, components: Path)
    requires ".." !in DropDots(components)
    ensures Walk(at, components) == at + DropDots(components)
    decreases |components|
  {
    if components == [] {
      assert at + [] == at;
    } else {
      var c, rest := components[0], components[1..];
      if c == "" || c == "." {
        WalkWithoutUp(at, rest);
      } else {
        assert DropDots(components)[0] == c;
        assert DropDots(components)[1..] == DropDots(rest);
        WalkWithoutUp(at + [c], rest);
        assert at + [c] + DropDots(rest) == at + DropDots(components);
      }
    }
  }

  /** Where a name leads from a directory: an absolute one starts at the root of
      the file system. */
  function Resolve(at: Path, name: string): Path {
    Walk(if name != "" && name[0] == '/' then [] else at, Split(name))
  }

  /** A name the backup check accepts leads to a place below the destination,
      the one the restore computes from its parts. */
  lemma SafeNameStaysInside(destination: Path, name: string)
    requires SafeMemberName(name)
    ensures Resolve(destination, name) == destination + Parts(name)
    ensures destination <= Resolve(destination, name)
  {
    WalkWithoutUp(destination, Split(name));
  }

  /** A path the snapshot check accepts, whatever the manifest says, is strictly
      below the project root and not below its .minit or .git. */
  lemma SafePathStaysInside(root: Path, name: string)
    requires SafeMemberPath(name).Some?
    ensures Resolve(root, name) == root + SafeMemberPath(name).value
    ensures root < Resolve(root, name)
    ensures !(root + [".minit"] <= Resolve(root, name)) && !(root + [".git"] <= Resolve(root, name))
  {
    WalkWithoutUp(root, Split(name));
    var there := Resolve(root, name);
    assert there[|root|] == SafeMemberPath(name).value[0];
    assert (root + [".minit"])[|root|] == ".minit" && (root + [".git"])[|root|] == ".git";
  }

  // ----- real paths survive their names -------------------------------------

  lemma {:induction false} SplitComponent(p: string)
    requires '/' !in p
    ensures Split(p) == [p]
  {
    if p != "" {
      SplitComponent(p[1..]);
      assert p == [p[0]] + p[1..];
    }
  }

  lemma {:induction false} SplitFirst(p: string, rest: string)
    requires '/' !in p
    ensures Split(p + "/" + rest) == [p] + Split(rest)
  {
    var s := p + "/" + rest;
    if p == "" {
      assert s[0] == '/' && s[1..] == rest;
    } else {
      assert s[0] == p[0] && s[1..] == p[1..] + "/" + rest;
      SplitFirst(p[1..], rest);
      assert p == [p[0]] + p[1..];
      assert ([p[1..]] + Split(rest))[1..] == Split(rest);
    }
  }

  lemma {:induction false} SplitJoin(p: Path)
    requires p != [] && IsRealPath(p)
    ensures Split(Join(p)) == p
  {
    if |p| == 1 {
      SplitComponent(p[0]);
    } else {
      SplitJoin(p[1..]);
      SplitFirst(p[0], Join(p[1..]));
      assert p == [p[0]] + p[1..];
    }
  }

  lemma {:induction false} DropDotsOfReal(p: Path)
    requires IsRealPath(p)
    ensures DropDots(p) == p
  {
    if p != [] { DropDotsOfReal(p[1..]); }
  }

  lemma JoinStart(p: Path)
    requires p != [] && IsRealPath(p)
    ensures Join(p) != "" && Join(p)[0] == p[0][0]
  {}

  /** Writing a real path as a member name and reading its parts back. */
  lemma PartsOfJoin(p: Path)
    requires p != [] && IsRealPath(p)
    ensures Parts(Join(p)) == p && !IsAbsolute(Join(p)) && SafeMemberName(Join(p))
    ensures p[0] != ".minit" && p[0] != ".git" ==> SafeMemberPath(Join(p)) == Some(p)
  {
    SplitJoin(p);
    DropDotsOfReal(p);
    JoinStart(p);
    assert IsComponent(p[0]) && p[0][0] in p[0];
  }

  /** Two real paths never share a name. */
  lemma JoinInjective(p: Path, q: Path)
    requires p != [] && q != [] && IsRealPath(p) && IsRealPath(q) && Join(p) == Join(q)
    ensures p == q
  {
    PartsOfJoin(p);
    PartsOfJoin(q);
  }

  // ----- exactly which names are accepted -----------------------------------

  /** The name goes up somewhere: it is "..", or has it as a component. */
  ghost predicate GoesUp(name: string) {
    || name == ".."
    || (exists b: string :: name == "../" + b)
    || (exists a: string :: name == a + "/..")
    || (exists a: string, b: string :: name == (a + "/../") + b)
  }

  lemma {:induction false} SplitAppend(a: string, b: string)
    ensures Split(a + "/" + b) == Split(a) + Split(b)
  {
    var s := a + "/" + b;
    if a == "" {
      assert s[0] == '/' && s[1..] == b;
    } else {
      hide Split;
      assert s[0] == a[0] && s[1..] == a[1..] + "/" + b;
      SplitAppend(a[1..], b);
      SplitNext(a);
      SplitNext(s);
      HeadGrows(Split(a[1..]), a[0], Split(b));
      assert [""] + (Split(a[1..]) + Split(b)) == [""] + Split(a[1..]) + Split(b);
    }
  }

  lemma SplitNext(s: string)
    requires s != ""
    ensures var rest := Split(s[1..]);
            Split(s) == if s[0] == '/' then [""] + rest else [[s[0]] + rest[0]] + rest[1..]
  {}

  lemma HeadGrows(p: Path, c: char, q: Path)
    requires p != []
    ensures [[c] + (p + q)[0]] + (p + q)[1..] == ([[c] + p[0]] + p[1..]) + q
  {
    assert (p + q)[0] == p[0] && (p + q)[1..] == p[1..] + q;
  }

  /** Joining the components gives the name back. */
  lemma {:induction false} JoinSplit(s: string)
    ensures Join(Split(s)) == s
    ensures forall c | c in Split(s) :: '/' !in c
  {
    if s != "" {
      JoinSplit(s[1..]);
      var rest := Split(s[1..]);
      if s[0] == '/' {
        JoinCons("", rest);
        assert "" + "/" + s[1..] == s;
      } else {
        var first := [s[0]] + rest[0];
        if |rest| == 1 {
          assert Split(s) == [first];
          assert [s[0]] + s[1..] == s;
        } else {
          JoinCons(first, rest[1..]);
          JoinCons(rest[0], rest[1..]);
          assert rest == [rest[0]] + rest[1..];
          assert first + "/" + Join(rest[1..]) == [s[0]] + (rest[0] + "/" + Join(rest[1..]));
        }
        assert forall c | c in Split(s) :: c == first || c in rest;
        assert '/' !in rest[0] by { assert rest[0] in rest; }
      }
    }
  }

  lemma JoinCons(c: string, rest: Path)
    requires rest != []
    ensures Join([c] + rest) == c + "/" + Join(rest)
  {
    assert ([c] + rest)[1..] == rest;
  }

  lemma {:induction false} JoinAppend(p: Path, q: Path)
    requires p != [] && q != []
    ensures Join(p + q) == Join(p) + "/" + Join(q)
  {
    assert p == [p[0]] + p[1..];
    if |p| == 1 {
      assert p + q == [p[0]] + q;
      JoinCons(p[0], q);
    } else {
      JoinAppend(p[1..], q);
      JoinCons(p[0], p[1..]);
      JoinCons(p[0], p[1..] + q);
      assert p + q == [p[0]] + (p[1..] + q);
    }
  }

  lemma UpIsSplit()
    ensures Split("..") == [".."]
  {
    SplitComponent("..");
  }

  lemma UpIsThere(a: string, b: string)
    ensures GoesUp("..") && GoesUp("../" + b) && GoesUp(a + "/..") && GoesUp((a + "/../") + b)
  {}

  lemma UpComponentMeans(name: string)
    requires ".." in Split(name)
    ensures GoesUp(name)
  {
    hide Split, Join, GoesUp;
    JoinSplit(name);
    var parts := Split(name);
    var k :| 0 <= k < |parts| && parts[k] == "..";
    var p, q := parts[..k], parts[k + 1..];
    assert parts == p + ([".."] + q);
    JoinOne("..");
    UpIsThere(Join(p), Join(q));
    if q != [] { JoinCons("..", q); } else { assert [".."] + q == [".."]; }
    if p != [] { JoinAppend(p, [".."] + q); } else { assert parts == [".."] + q; }
    JoinedUp(Join(p), Join(q));
  }

  lemma JoinOne(c: string)
    ensures Join([c]) == c
  {}

  lemma JoinedUp(a: string, b: string)
    ensures a + "/" + (".." + "/" + b) == (a + "/../") + b && a + "/" + ".." == a + "/.." && ".." + "/" + b == "../" + b
  {}

  lemma MeansUpComponent(name: string)
    requires GoesUp(name)
    ensures ".." in Split(name)
  {
    UpIsSplit();
    if name != ".." {
      if b: string :| name == "../" + b {
        assert name == ".." + "/" + b;
        SplitAppend("..", b);
      } else if a: string :| name == a + "/.." {
        assert name == a + "/" + "..";
        SplitAppend(a, "..");
      } else {
        var a: string, b: string :| name == (a + "/../") + b;
        assert name == a + "/" + (".." + "/" + b);
        SplitAppend(a, ".." + "/" + b);
        SplitAppend("..", b);
      }
    }
  }

  lemma {:induction false} DropDotsKeeps(p: Path, c: string)
    requires c != "" && c != "."
    ensures c in DropDots(p) <==> c in p
  {
    if p != [] { DropDotsKeeps(p[1..], c); }
  }

  /** The backup check accepts exactly the names that are not empty, do not start
      with a slash and do not go up. */
  lemma SafeNameExactly(name: string)
    ensures SafeMemberName(name) <==> name != "" && name[0] != '/' && !GoesUp(name)
  {
    DropDotsKeeps(Split(name), "..");
    if GoesUp(name) { MeansUpComponent(name); }
    if ".." in Split(name) { UpComponentMeans(name); }
  }

  /** The snapshot check accepts exactly those that also lead somewhere, and not
      into .minit or .git, and returns the place. */
  lemma SafePathExactly(name: string, p: Path)
    ensures SafeMemberPath(name) == Some(p)
       <==> !(name != "" && name[0] == '/') && !GoesUp(name) && p == Resolve([], name)
            && p != [] && p[0] != ".minit" && p[0] != ".git"
  {
    DropDotsKeeps(Split(name), "..");
    if GoesUp(name) { MeansUpComponent(name); }
    if ".." in Split(name) {
      UpComponentMeans(name);
    } else {
      WalkWithoutUp([], Split(name));
      assert [] + Parts(name) == Parts(name);
    }
  }
}
