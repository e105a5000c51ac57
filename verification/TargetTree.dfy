/** The tree a `bencode_map` builds.  A `target*` of the source is an access path here: the
    steps from `m_root` down to the node, each dereferenced when it is used, so that a write
    through any pointer is seen from the root. */
module TargetTree {
  import opened Basics

  datatype TargetType = UnknownType | Integers | Strings | Lists | Dictionaries

  datatype Target = Target(
    kind: TargetType,
    text: seq<byte>,
    number: int,
    list: seq<Target>,
    dict: map<seq<byte>, Target>,
    latestKey: seq<byte>,
    raw: seq<byte>)

  /** A default-constructed target. */
  const BLANK: Target := Target(UnknownType, [], 0, [], map[], [], [])

  const EMPTY_LIST: Target := BLANK.(kind := Lists)
  const EMPTY_DICT: Target := BLANK.(kind := Dictionaries)

  function StringTarget(s: seq<byte>): Target {
    BLANK.(kind := Strings, text := s)
  }

  function IntegerTarget(n: int): Target {
    BLANK.(kind := Integers, number := n)
  }

  predicate CanHaveChildren(t: Target) {
    t.kind == Dictionaries || t.kind == Lists
  }

  datatype Step = Index(i: nat) | Key(k: seq<byte>)

  type Path = seq<Step>

  predicate HasChild(t: Target, s: Step) {
    match s
    case Index(i) => t.kind == Lists && i < |t.list|
    case Key(k) => t.kind == Dictionaries && k in t.dict
  }

  function Child(t: Target, s: Step): Target
    requires HasChild(t, s)
  {
    match s
    case Index(i) => t.list[i]
    case Key(k) => t.dict[k]
  }

  /** Can a container be stored at this step, over the old child or just past the last one? */
  predicate HasSlot(t: Target, s: Step) {
    match s
    case Index(i) => t.kind == Lists && i <= |t.list|
    case Key(k) => t.kind == Dictionaries
  }

  function SetChild(t: Target, s: Step, u: Target): Target
    requires HasSlot(t, s)
  {
    match s
    case Index(i) => if i == |t.list| then t.(list := t.list + [u]) else t.(list := t.list[i := u])
    case Key(k) => t.(dict := t.dict[k := u])
  }

  /** Does the path lead to a node? */
  predicate IsPath(t: Target, p: Path) {
    p == [] || (HasChild(t, p[0]) && IsPath(Child(t, p[0]), p[1..]))
  }

  /** The node a path leads to. */
  function Get(t: Target, p: Path): Target
    requires IsPath(t, p)
  {
    if p == [] then t else Get(Child(t, p[0]), p[1..])
  }

  function Note(t: Target, bs: seq<byte>): Target {
    t.(raw := t.raw + bs)
  }

  /** Every node strictly above the end of the path notes `bs` as raw bytes, and `u` replaces
      the node at its end: what feeding `bs` does to the tree while the path is open. */
  function Graft(t: Target, p: Path, bs: seq<byte>, u: Target): Target
    requires IsPath(t, p)
  {
    if p == [] then u
    else SetChild(Note(t, bs), p[0], Graft(Child(t, p[0]), p[1..], bs, u))
  }

  lemma {:induction false} GraftGet(t: Target, p: Path, bs: seq<byte>, u: Target)
    requires IsPath(t, p)
    ensures IsPath(Graft(t, p, bs, u), p)
    ensures Get(Graft(t, p, bs, u), p) == u
  {
    if p == [] {
    } else {
      GraftGet(Child(t, p[0]), p[1..], bs, u);
    }
  }

  lemma {:induction false} GraftGraft(t: Target, p: Path, a: seq<byte>, u: Target, b: seq<byte>, w: Target)
    requires IsPath(t, p)
    ensures IsPath(Graft(t, p, a, u), p)
    ensures Graft(Graft(t, p, a, u), p, b, w) == Graft(t, p, a + b, w)
  {
    GraftGet(t, p, a, u);
    if p == [] {
    } else {
      var c := Child(t, p[0]);
      GraftGraft(c, p[1..], a, u, b, w);
      assert (t.raw + a) + b == t.raw + (a + b);
      match p[0] {
        case Index(i) =>
          var x, y := Graft(c, p[1..], a, u), Graft(c, p[1..], a + b, w);
          assert t.list[i := x][i := y] == t.list[i := y];
        case Key(k) =>
          var x, y := Graft(c, p[1..], a, u), Graft(c, p[1..], a + b, w);
          assert t.dict[k := x][k := y] == t.dict[k := y];
      }
    }
  }

  /** Grafting nothing new changes nothing. */
  lemma {:induction false} GraftSame(t: Target, p: Path)
    requires IsPath(t, p)
    ensures Graft(t, p, [], Get(t, p)) == t
  {
    if p == [] {
    } else {
      GraftSame(Child(t, p[0]), p[1..]);
      assert t.raw + [] == t.raw;
      match p[0] {
        case Index(i) => assert t.list[i := t.list[i]] == t.list;
        case Key(k) => assert t.dict[k := t.dict[k]] == t.dict;
      }
    }
  }

  lemma {:induction false} IsPathExtend(t: Target, p: Path, s: Step)
    requires IsPath(t, p)
    ensures IsPath(t, p + [s]) <==> HasChild(Get(t, p), s)
    ensures HasChild(Get(t, p), s) ==> Get(t, p + [s]) == Child(Get(t, p), s)
  {
    if p != [] {
      assert (p + [s])[1..] == p[1..] + [s];
      IsPathExtend(Child(t, p[0]), p[1..], s);
    } else {
      assert [s][1..] == [];
    }
  }

  /** Grafting one step further down is grafting the changed parent. */
  lemma {:induction false} GraftExtend(t: Target, p: Path, s: Step, bs: seq<byte>, u: Target)
    requires IsPath(t, p) && HasChild(Get(t, p), s)
    ensures IsPath(t, p + [s])
    ensures Graft(t, p + [s], bs, u) == Graft(t, p, bs, SetChild(Note(Get(t, p), bs), s, u))
  {
    IsPathExtend(t, p, s);
    if p != [] {
      assert (p + [s])[1..] == p[1..] + [s];
      GraftExtend(Child(t, p[0]), p[1..], s, bs, u);
    } else {
      assert [s][1..] == [];
    }
  }

  // ---------------------------------------------------------------- open paths

  /** An open container is the last element of its list, or an entry of its dictionary. */
  predicate OpenStep(t: Target, s: Step) {
    HasChild(t, s) && (s.Index? ==> s.i == |t.list| - 1)
  }

  /** The path runs through containers only, each one open in its predecessor. */
  predicate IsOpenPath(t: Target, p: Path) {
    && CanHaveChildren(t)
    && (p == [] || (OpenStep(t, p[0]) && IsOpenPath(Child(t, p[0]), p[1..])))
  }

  lemma {:induction false} OpenPathIsPath(t: Target, p: Path)
    requires IsOpenPath(t, p)
    ensures IsPath(t, p) && CanHaveChildren(Get(t, p))
  {
    if p == [] {
    } else {
      OpenPathIsPath(Child(t, p[0]), p[1..]);
    }
  }

  lemma {:induction false} OpenPathPrefix(t: Target, p: Path, n: nat)
    requires IsOpenPath(t, p) && n <= |p|
    ensures IsOpenPath(t, p[..n])
  {
    if n == 0 {
    } else {
      assert p[..n][1..] == p[1..][..n - 1];
      OpenPathPrefix(Child(t, p[0]), p[1..], n - 1);
    }
  }

  lemma {:induction false} OpenPathExtend(t: Target, p: Path, s: Step)
    requires IsOpenPath(t, p) && IsPath(t, p)
    requires OpenStep(Get(t, p), s) && CanHaveChildren(Child(Get(t, p), s))
    ensures IsOpenPath(t, p + [s])
  {
    if p != [] {
      assert (p + [s])[1..] == p[1..] + [s];
      OpenPathExtend(Child(t, p[0]), p[1..], s);
    } else {
      assert [s][1..] == [];
    }
  }

  /** Changing the innermost open container keeps the path open as long as it stays a container. */
  lemma {:induction false} OpenPathGraft(t: Target, p: Path, bs: seq<byte>, u: Target)
    requires IsOpenPath(t, p) && IsPath(t, p) && CanHaveChildren(u)
    ensures IsOpenPath(Graft(t, p, bs, u), p)
  {
    if p == [] {
    } else {
      OpenPathGraft(Child(t, p[0]), p[1..], bs, u);
    }
  }
}
