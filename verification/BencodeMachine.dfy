/** The byte machine of `bencode_map` as a function from states to states. */
module BencodeMachine {
  import opened Basics
  import opened Decimal
  import opened TargetTree

  datatype Mode =
    | Unknown
    | ParsingList
    | ParsingDictionary
    | ParsingWord
    | ParsingWordLength
    | ParsingInteger

  /** The fields of a `bencode_map` that a later byte can depend on. */
  datatype State = State(
    mode: Mode,
    elementLength: nat,
    storeRaw: bool,
    element: seq<byte>,
    lengthText: seq<byte>,
    queue: seq<Path>,
    root: Target)

  function Fresh(storeRaw: bool): (s: State)
    ensures Inv(s)
  {
    State(Unknown, 0, storeRaw, [], [], [], BLANK)
  }

  /** All prefixes of a path, from the root to its end. */
  function Prefixes(p: Path): (q: seq<Path>)
    ensures |q| == |p| + 1
  {
    seq(|p| + 1, i requires 0 <= i <= |p| => p[..i])
  }

  function Last(queue: seq<Path>): Path
    requires queue != []
  {
    queue[|queue| - 1]
  }

  /** The queue is the chain of open containers from the root to the innermost one. */
  predicate Inv(s: State) {
    && s.elementLength < TWO_TO_THE_64
    && (s.queue != [] ==> IsOpenPath(s.root, Last(s.queue)) && s.queue == Prefixes(Last(s.queue)))
  }

  /** The innermost open container. */
  function OpenNode(s: State): (u: Target)
    requires Inv(s) && s.queue != []
    ensures CanHaveChildren(u) && IsPath(s.root, Last(s.queue))
  {
    OpenPathIsPath(s.root, Last(s.queue));
    Get(s.root, Last(s.queue))
  }

  /** What is noted of `bs` in the raw records. */
  function Noting(s: State, bs: seq<byte>): seq<byte> {
    if s.storeRaw then bs else []
  }

  /** `bs` noted by all open containers but the innermost, which becomes `u`. */
  function Edit(s: State, bs: seq<byte>, u: Target): (r: State)
    requires Inv(s) && s.queue != [] && CanHaveChildren(u)
    ensures Inv(r) && r.queue == s.queue && OpenNode(r) == u
  {
    OpenPathIsPath(s.root, Last(s.queue));
    OpenPathGraft(s.root, Last(s.queue), Noting(s, bs), u);
    GraftGet(s.root, Last(s.queue), Noting(s, bs), u);
    s.(root := Graft(s.root, Last(s.queue), Noting(s, bs), u))
  }

  /** `bs` noted by every open container. */
  function Noted(s: State, bs: seq<byte>): (r: State)
    requires Inv(s)
    ensures Inv(r)
  {
    if s.queue == [] then s else Edit(s, bs, Note(OpenNode(s), Noting(s, bs)))
  }

  /** A container after one more child arrived.  In a dictionary a string without a pending key
      becomes the key, and anything else without a pending key is dropped. */
  function Inserted(u: Target, child: Target): (r: Target)
    ensures r.kind == u.kind
  {
    if u.kind == Lists then u.(list := u.list + [child])
    else if u.kind != Dictionaries then u
    else if u.latestKey != [] then u.(dict := u.dict[u.latestKey := child], latestKey := [])
    else if child.kind == Strings then u.(latestKey := child.text)
    else u
  }

  /** Where the next child of a container is stored. */
  function NextStep(u: Target): Step {
    if u.kind == Lists then Index(|u.list|) else Key(u.latestKey)
  }

  /** Does the container take a container as its next child? */
  predicate TakesContainer(u: Target) {
    u.kind == Lists || (u.kind == Dictionaries && u.latestKey != [])
  }

  lemma PrefixesExtend(p: Path, s: Step)
    ensures Prefixes(p + [s]) == Prefixes(p) + [p + [s]]
    ensures Prefixes(p + [s])[..|p| + 1] == Prefixes(p)
  {
    assert forall i :: 0 <= i <= |p| ==> (p + [s])[..i] == p[..i];
    assert (p + [s])[..|p| + 1] == p + [s];
  }

  lemma PrefixesDrop(p: Path)
    requires p != []
    ensures Prefixes(p)[..|p|] == Prefixes(p[..|p| - 1])
  {
    PrefixesExtend(p[..|p| - 1], p[|p| - 1]);
    assert p == p[..|p| - 1] + [p[|p| - 1]];
  }

  /** `push_to_target` */
  function PushToTarget(s: State, child: Target): (r: State)
    requires Inv(s)
    ensures Inv(r)
  {
    if s.queue == [] then
      assert Prefixes([]) == [[]];
      s.(root := child, queue := if CanHaveChildren(child) then [[]] else [])
    else
      var p, u := Last(s.queue), OpenNode(s);
      var r := s.(root := Graft(s.root, p, [], Inserted(u, child)));
      OpenPathGraft(s.root, p, [], Inserted(u, child));
      GraftGet(s.root, p, [], Inserted(u, child));
      if CanHaveChildren(child) && TakesContainer(u) then
        OpenPathExtend(r.root, p, NextStep(u));
        PrefixesExtend(p, NextStep(u));
        r.(queue := r.queue + [p + [NextStep(u)]])
      else r
  }

  /** `end_target`: popping an empty vector is undefined behaviour. */
  function EndTarget(s: State): (r: Outcome<State>)
    requires Inv(s)
    ensures r.Ok? ==> Inv(r.value)
  {
    if s.queue == [] then Fails(Undefined) else
      var p := Last(s.queue);
      if p == [] then Ok(s.(queue := [])) else
        PrefixesDrop(p);
        OpenPathPrefix(s.root, p, |p| - 1);
        var popped := s.queue[..|s.queue| - 1];
        assert Last(popped) == p[..|p| - 1];
        Ok(s.(queue := popped))
  }

  /** `switch_state`: finishes what the old mode accumulated. */
  function SwitchState(s: State, mode: Mode): (r: Outcome<State>)
    requires Inv(s)
    ensures r.Ok? ==> Inv(r.value)
  {
    var t := s.(mode := mode);
    match s.mode
    case ParsingWordLength =>
      var n :- Stol(s.lengthText);
      Ok(t.(elementLength := ToSizeT(n), lengthText := []))
    case ParsingWord =>
      Ok(PushToTarget(t, StringTarget(s.element)).(element := []))
    case ParsingInteger =>
      var n :- Stol(s.element);
      Ok(PushToTarget(t, IntegerTarget(n)).(element := []))
    case _ => Ok(t)
  }

  /** `consume_state`: the first byte of a value, or the end of a container. */
  function ConsumeState(s: State, c: byte): (r: Outcome<State>)
    requires Inv(s)
    ensures r.Ok? ==> Inv(r.value)
  {
    var t := s.(mode := Unknown);
    if c == 105 then Ok(t.(mode := ParsingInteger))
    else if c == 108 then Ok(PushToTarget(t, EMPTY_LIST).(mode := ParsingList))
    else if c == 100 then Ok(PushToTarget(t, EMPTY_DICT).(mode := ParsingDictionary))
    else if c == 101 then EndTarget(t)
    else if IsDigit(c) then Ok(t.(mode := ParsingWordLength, lengthText := t.lengthText + [c]))
    else Ok(t)
  }

  /** `m_element_length--` on a `size_t`. */
  function Decrement(n: nat): (r: nat)
    requires n < TWO_TO_THE_64
    ensures r < TWO_TO_THE_64
  {
    if n == 0 then TWO_TO_THE_64 - 1 else n - 1
  }

  /** `consume_byte` */
  function ConsumeByte(s: State, c: byte): (r: Outcome<State>)
    requires Inv(s)
    ensures r.Ok? ==> Inv(r.value)
  {
    var t := Noted(s, [c]);
    match t.mode
    case ParsingInteger =>
      if !IsDigit(c) && c != 45 then SwitchState(t, Unknown)
      else Ok(t.(element := t.element + [c]))
    case ParsingWord =>
      var u := t.(element := t.element + [c], elementLength := Decrement(t.elementLength));
      if u.elementLength == 0 then SwitchState(u, Unknown) else Ok(u)
    case ParsingWordLength =>
      if !IsDigit(c) then SwitchState(t, ParsingWord)
      else Ok(t.(lengthText := t.lengthText + [c]))
    case _ => ConsumeState(t, c)
  }

  /** `from_buffer`: the machine fed byte by byte. */
  function Run(s: State, bs: seq<byte>): (r: Outcome<State>)
    requires Inv(s)
    ensures r.Ok? ==> Inv(r.value)
    decreases bs
  {
    if bs == [] then Ok(s) else
      var t :- ConsumeByte(s, bs[0]);
      Run(t, bs[1..])
  }

  /** Two buffers in a row are one buffer: parsing does not depend on how the input is cut. */
  lemma {:induction false} RunConcat(s: State, a: seq<byte>, b: seq<byte>)
    requires Inv(s)
    ensures Run(s, a + b) == match Run(s, a)
                             case Ok(t) => Run(t, b)
                             case Fails(f) => Fails(f)
    decreases a
  {
    if a == [] {
      assert a + b == b;
    } else {
      assert (a + b)[0] == a[0] && (a + b)[1..] == a[1..] + b;
      var t := ConsumeByte(s, a[0]);
      if t.Ok? {
        RunConcat(t.value, a[1..], b);
      }
    }
  }

  lemma RunNone(s: State)
    requires Inv(s)
    ensures Run(s, []) == Ok(s)
  {
  }

  lemma RunOne(s: State, c: byte)
    requires Inv(s)
    ensures Run(s, [c]) == ConsumeByte(s, c)
  {
    assert [c][1..] == [];
  }
}
