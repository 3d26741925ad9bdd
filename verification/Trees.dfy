/** Directory trees and their archives. A tree maps the relative path of every
    directory and regular file below a root to what is there; an archive is a
    sequence of members, and tar and gzip are an invertible stream codec. */
module Trees {
  import opened Results
  import opened Bytes
  import opened MemberPaths

  datatype Node = Dir | File(data: bytes)
  type Tree = map<Path, Node>

  /** Every path is real, and every directory above it is in the tree. */
  predicate IsTree(t: Tree) {
    forall p | p in t :: p != [] && IsRealPath(p)
      && forall n | 0 < n < |p| :: p[..n] in t && t[p[..n]].Dir?
  }

  datatype Kind = Directory | Regular | Link | Device | Other
  datatype Entry = Entry(name: string, kind: Kind, data: bytes)

  /** The member archive.add writes for a path of the tree. */
  function EntryOf(t: Tree, p: Path): Entry
    requires p in t
  {
    match t[p]
    case Dir => Entry(Join(p), Directory, [])
    case File(data) => Entry(Join(p), Regular, data)
  }

  /** A listing names every path of the tree once, as sorted(rglob("*")) does. */
  ghost predicate IsListing(t: Tree, order: seq<Path>) {
    && (forall p :: p in order <==> p in t)
    && (forall i, j | 0 <= i < j < |order| :: order[i] != order[j])
  }

  function EntriesOf(t: Tree, order: seq<Path>): (es: seq<Entry>)
    requires forall p | p in order :: p in t
    ensures |es| == |order|
  {
    seq(|order|, i requires 0 <= i < |order| => EntryOf(t, order[i]))
  }

  function CountRegular(es: seq<Entry>): nat {
    if es == [] then 0 else CountRegular(es[..|es| - 1]) + if es[|es| - 1].kind.Regular? then 1 else 0
  }

  function RegularFiles(t: Tree): set<Path> {
    set p | p in t && t[p].File? :: p
  }

  function FilesAmong(t: Tree, order: seq<Path>): set<Path> {
    set p | p in order && p in t && t[p].File? :: p
  }

  lemma OneMorePath(t: Tree, before: seq<Path>, last: Path)
    requires last in t && last !in before
    ensures |FilesAmong(t, before + [last])| == |FilesAmong(t, before)| + if t[last].File? then 1 else 0
  {
    var a, b := FilesAmong(t, before), FilesAmong(t, before + [last]);
    assert b == if t[last].File? then a + {last} else a;
  }

  lemma LastEntry(t: Tree, before: seq<Path>, last: Path)
    requires (forall p | p in before + [last] :: p in t) && last in t
    ensures CountRegular(EntriesOf(t, before + [last]))
         == CountRegular(EntriesOf(t, before)) + if t[last].File? then 1 else 0
  {
    var es := EntriesOf(t, before + [last]);
    assert es[..|before|] == EntriesOf(t, before) && es[|before|] == EntryOf(t, last);
  }

  lemma {:induction false} CountsThese(t: Tree, order: seq<Path>)
    requires forall p | p in order :: p in t
    requires forall i, j | 0 <= i < j < |order| :: order[i] != order[j]
    ensures CountRegular(EntriesOf(t, order)) == |FilesAmong(t, order)|
  {
    hide FilesAmong, EntriesOf, CountRegular;
    if order == [] {
      NothingCounted(t);
    } else {
      var n := |order| - 1;
      CountsThese(t, order[..n]);
      assert order == order[..n] + [order[n]];
      LastEntry(t, order[..n], order[n]);
      OneMorePath(t, order[..n], order[n]);
    }
  }

  lemma NothingCounted(t: Tree)
    ensures CountRegular(EntriesOf(t, [])) == 0 == |FilesAmong(t, [])|
  {
    assert FilesAmong(t, []) == {};
  }

  /** Counting the regular members of a tree's archive counts its files. */
  lemma CountsTheFiles(t: Tree, order: seq<Path>)
    requires IsListing(t, order)
    ensures CountRegular(EntriesOf(t, order)) == |RegularFiles(t)|
  {
    CountsThese(t, order);
    assert RegularFiles(t) == FilesAmong(t, order);
  }

  // ----- extraction ---------------------------------------------------------

  /** ensure_private_dir: mkdir(parents=True, exist_ok=True). */
  function MakeDirs(t: Tree, p: Path): Option<Tree>
    decreases |p|
  {
    if p == [] then Some(t)
    else
      var above :- MakeDirs(t, p[..|p| - 1]);
      if p !in above then Some(above[p := Dir])
      else if above[p].Dir? then Some(above) else None
  }

  predicate Refused(e: Entry) {
    !SafeMemberName(e.name) || e.kind.Link? || e.kind.Device?
  }

  /** Links and devices are refused, and names that are empty, absolute or go up. */
  lemma RefusedExactly(e: Entry)
    ensures Refused(e) <==> e.kind in {Link, Device} || e.name == "" || e.name[0] == '/' || GoesUp(e.name)
  {
    SafeNameExactly(e.name);
  }

  /** One round of the extraction loop; None is an error. */
  function ExtractEntry(t: Tree, e: Entry): Option<Tree> {
    if Refused(e) then None
    else
      var target := Parts(e.name);
      match e.kind
      case Directory => MakeDirs(t, target)
      case Regular =>
        if target == [] then None
        else
          var above :- MakeDirs(t, target[..|target| - 1]);
          if target in above && above[target].Dir? then None else Some(above[target := File(e.data)])
      case _ => Some(t)
  }

  function ExtractAll(t: Tree, es: seq<Entry>): Option<Tree> {
    if es == [] then Some(t)
    else
      var before :- ExtractAll(t, es[..|es| - 1]);
      ExtractEntry(before, es[|es| - 1])
  }

  // ----- archiving then extracting ------------------------------------------

  ghost predicate Within(a: Tree, b: Tree) {
    forall p | p in a :: p in b && a[p] == b[p]
  }

  /** Making the directories of a tree, in a part of that tree, stays in it. */
  lemma {:induction false} MakeDirsWithin(part: Tree, whole: Tree, p: Path)
    requires Within(part, whole) && IsTree(whole)
    requires forall n | 0 < n <= |p| :: p[..n] in whole && whole[p[..n]].Dir?
    ensures MakeDirs(part, p).Some? && Within(part, MakeDirs(part, p).value) && Within(MakeDirs(part, p).value, whole)
    ensures p != [] ==> p in MakeDirs(part, p).value
    decreases |p|
  {
    if p != [] {
      var q := p[..|p| - 1];
      forall n | 0 < n <= |q| ensures q[..n] in whole && whole[q[..n]].Dir? { assert q[..n] == p[..n]; }
      MakeDirsWithin(part, whole, q);
      assert p[..|p|] == p;
    }
  }

  /** One member of the tree's archive adds its path and nothing foreign. */
  lemma ExtractEntryWithin(part: Tree, whole: Tree, p: Path)
    requires Within(part, whole) && IsTree(whole) && p in whole
    ensures var r := ExtractEntry(part, EntryOf(whole, p));
            r.Some? && Within(part, r.value) && Within(r.value, whole) && p in r.value
  {
    PartsOfJoin(p);
    assert p[..|p|] == p;
    var q := p[..|p| - 1];
    forall n | 0 < n <= |q| ensures q[..n] in whole && whole[q[..n]].Dir? { assert q[..n] == p[..n]; }
    if whole[p].Dir? { MakeDirsWithin(part, whole, p); } else { MakeDirsWithin(part, whole, q); }
  }

  lemma {:induction false} ExtractWithin(whole: Tree, order: seq<Path>)
    requires IsTree(whole) && forall p | p in order :: p in whole
    ensures var r := ExtractAll(map[], EntriesOf(whole, order));
            r.Some? && Within(r.value, whole) && forall p | p in order :: p in r.value
  {
    if order != [] {
      var n := |order| - 1;
      assert EntriesOf(whole, order)[..n] == EntriesOf(whole, order[..n]);
      ExtractWithin(whole, order[..n]);
      ExtractEntryWithin(ExtractAll(map[], EntriesOf(whole, order[..n])).value, whole, order[n]);
      assert order == order[..n] + [order[n]];
    }
  }

  /** Extracting an archive of a tree into an empty directory rebuilds exactly
      that tree, in whatever order the members were listed. */
  lemma ArchiveRoundTrip(t: Tree, order: seq<Path>)
    requires IsTree(t) && IsListing(t, order)
    ensures ExtractAll(map[], EntriesOf(t, order)) == Some(t)
  {
    ExtractWithin(t, order);
    var r := ExtractAll(map[], EntriesOf(t, order)).value;
    assert r.Keys == t.Keys;
    assert r == t;
  }

  /** None of the members is refused, so verification accepts the archive. */
  lemma MembersAccepted(t: Tree, order: seq<Path>)
    requires IsTree(t) && forall p | p in order :: p in t
    ensures forall e | e in EntriesOf(t, order) :: !Refused(e)
  {
    forall i | 0 <= i < |order| ensures !Refused(EntriesOf(t, order)[i]) { PartsOfJoin(order[i]); }
  }

  // ----- tar and gzip -------------------------------------------------------

  /** A stream codec: pack is what the tar writer emits, unpack what the tar
      reader makes of a byte string that may go on after the archive. */
  datatype Codec = Codec(pack: seq<Entry> -> bytes, unpack: bytes -> Option<seq<Entry>>)

  ghost predicate IsCodec(c: Codec) {
    && (forall es :: c.unpack(c.pack(es)) == Some(es))
    && (forall a, b | a <= b && c.unpack(a).Some? :: c.unpack(b) == c.unpack(a))
  }
}
