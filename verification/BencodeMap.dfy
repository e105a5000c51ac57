/** The class `bencode_map` itself: fields updated in place, byte by byte, and the cursor that
    its subscript operators move.  The methods are proved against `BencodeMachine`. */
module BencodeMap {
  import opened Basics
  import opened Decimal
  import opened TargetTree
  import opened BencodeMachine

  // ------------------------------------------------------------ noting a byte, pointer by pointer

  /** The first `n` nodes along the path noted `bs`. */
  function NotedTop(t: Target, p: Path, n: nat, bs: seq<byte>): Target
    requires IsPath(t, p)
  {
    if n == 0 then t
    else if p == [] then Note(t, bs)
    else SetChild(Note(t, bs), p[0], NotedTop(Child(t, p[0]), p[1..], n - 1, bs))
  }

  lemma {:induction false} NotedTopPath(t: Target, p: Path, n: nat, bs: seq<byte>)
    requires IsPath(t, p)
    ensures IsPath(NotedTop(t, p, n, bs), p)
  {
    if n == 0 || p == [] {
    } else {
      NotedTopPath(Child(t, p[0]), p[1..], n - 1, bs);
    }
  }

  lemma {:induction false} PathPrefix(t: Target, p: Path, n: nat)
    requires IsPath(t, p) && n <= |p|
    ensures IsPath(t, p[..n])
  {
    if n == 0 {
    } else {
      assert p[..n][1..] == p[1..][..n - 1];
      PathPrefix(Child(t, p[0]), p[1..], n - 1);
    }
  }

  /** Noting through the next pointer of the queue notes one more node of the path. */
  lemma {:induction false} NotedTopNext(t: Target, p: Path, n: nat, bs: seq<byte>)
    requires IsPath(t, p) && n <= |p|
    ensures var m := NotedTop(t, p, n, bs);
            && IsPath(m, p[..n])
            && Graft(m, p[..n], [], Note(Get(m, p[..n]), bs)) == NotedTop(t, p, n + 1, bs)
  {
    NotedTopPath(t, p, n, bs);
    PathPrefix(NotedTop(t, p, n, bs), p, n);
    if n > 0 {
      var c := Child(t, p[0]);
      NotedTopNext(c, p[1..], n - 1, bs);
      assert p[..n][1..] == p[1..][..n - 1];
      var m := NotedTop(t, p, n, bs);
      assert m.raw + [] == m.raw;
      var x, y := NotedTop(c, p[1..], n - 1, bs), NotedTop(c, p[1..], n, bs);
      match p[0] {
        case Index(i) => assert t.list[i := x][i := y] == t.list[i := y];
        case Key(k) => assert t.dict[k := x][k := y] == t.dict[k := y];
      }
    } else if p != [] {
      var u := Note(t, bs);
      match p[0] {
        case Index(i) => assert u.list[i := u.list[i]] == u.list;
        case Key(k) => assert u.dict[k := u.dict[k]] == u.dict;
      }
    }
  }

  lemma {:induction false} NotedTopAll(t: Target, p: Path, bs: seq<byte>)
    requires IsPath(t, p)
    ensures NotedTop(t, p, |p| + 1, bs) == Graft(t, p, bs, Note(Get(t, p), bs))
  {
    if p == [] {
    } else {
      NotedTopAll(Child(t, p[0]), p[1..], bs);
    }
  }

  // ------------------------------------------------------------ the cursor

  /** `operator[]`: a subscript that does not suit the kind of the node is ignored, one that finds
      nothing throws. */
  function Subscript(root: Target, at: Path, s: Step): (r: Outcome<Path>)
    requires IsPath(root, at)
    ensures r.Ok? ==> IsPath(root, r.value)
  {
    IsPathExtend(root, at, s);
    var kind := if s.Index? then Lists else Dictionaries;
    if Get(root, at).kind != kind then Ok(at)
    else if HasChild(Get(root, at), s) then Ok(at + [s])
    else Fails(OutOfRange)
  }

  function Walked(root: Target, at: Path, steps: seq<Step>): (r: Outcome<Path>)
    requires IsPath(root, at)
    ensures r.Ok? ==> IsPath(root, r.value)
    decreases steps
  {
    if steps == [] then Ok(at) else
      var next :- Subscript(root, at, steps[0]);
      Walked(root, next, steps[1..])
  }

  lemma {:induction false} WalkedMore(root: Target, at: Path, steps: seq<Step>, s: Step)
    requires IsPath(root, at)
    ensures Walked(root, at, steps + [s])
         == match Walked(root, at, steps)
            case Ok(p) => Subscript(root, p, s)
            case Fails(f) => Fails(f)
    decreases steps
  {
    if steps == [] {
      assert [] + [s] == [s] && [s][1..] == [];
    } else {
      assert (steps + [s])[1..] == steps[1..] + [s];
      var next := Subscript(root, at, steps[0]);
      if next.Ok? {
        WalkedMore(root, next.value, steps[1..], s);
      }
    }
  }

  /** The node that a chain of subscripts from the root finds. */
  function Lookup(root: Target, steps: seq<Step>): Outcome<Target> {
    var p :- Walked(root, [], steps);
    Ok(Get(root, p))
  }

  lemma Lookup1(root: Target, a: Step)
    requires a.Key? && root.kind == Dictionaries
    ensures Lookup(root, [a]) == if a.k in root.dict then Ok(root.dict[a.k]) else Fails(OutOfRange)
  {
    WalkedMore(root, [], [], a);
    assert [] + [a] == [a];
    IsPathExtend(root, [], a);
  }

  lemma Lookup2(root: Target, a: Step, b: Step)
    requires a.Key? && b.Key? && root.kind == Dictionaries && a.k in root.dict
    requires root.dict[a.k].kind == Dictionaries
    ensures Lookup(root, [a, b])
         == if b.k in root.dict[a.k].dict then Ok(root.dict[a.k].dict[b.k]) else Fails(OutOfRange)
  {
    Lookup1(root, a);
    WalkedMore(root, [], [a], b);
    assert [a] + [b] == [a, b];
    var p := Walked(root, [], [a]).value;
    IsPathExtend(root, p, b);
  }

  /** A number finds the element at that place of a list, or throws; on any other node it is ignored. */
  lemma LookupIndex(root: Target, i: nat)
    ensures Lookup(root, [Index(i)])
         == if root.kind != Lists then Ok(root) else if i < |root.list| then Ok(root.list[i]) else Fails(OutOfRange)
  {
    WalkedMore(root, [], [], Index(i));
    assert [] + [Index(i)] == [Index(i)];
    IsPathExtend(root, [], Index(i));
  }

  lemma {:induction false} WalkedAlong(root: Target, p: Path)
    requires IsPath(root, p)
    ensures Walked(root, [], p) == Ok(p)
    decreases |p|
  {
    if p != [] {
      var n := |p| - 1;
      PathPrefix(root, p, n);
      assert p == p[..n] + [p[n]];
      WalkedAlong(root, p[..n]);
      WalkedMore(root, [], p[..n], p[n]);
      IsPathExtend(root, p[..n], p[n]);
    }
  }

  /** Along any path of the tree the subscripts find the node at its end. */
  lemma LookupAlong(root: Target, p: Path)
    requires IsPath(root, p)
    ensures Lookup(root, p) == Ok(Get(root, p))
  {
    WalkedAlong(root, p);
  }

  lemma LookupIgnored(root: Target, a: Step)
    requires a.Key? && root.kind != Dictionaries
    ensures Lookup(root, [a]) == Ok(root)
  {
    WalkedMore(root, [], [], a);
    assert [] + [a] == [a];
  }

  // ------------------------------------------------------------ the class

  class BencodeMap {
    var previousState: Mode
    var state: Mode
    var elementLength: nat
    var storeRaw: bool
    var element: seq<byte>
    var elementLengthText: seq<byte>
    var targetQueue: seq<Path>
    var bracketRoot: Option<Path>
    var root: Target

    ghost function Snapshot(): State
      reads this
    {
      State(state, elementLength, storeRaw, element, elementLengthText, targetQueue, root)
    }

    ghost predicate Valid()
      reads this
    {
      Inv(Snapshot())
    }

    /** Has the cursor been set, and does it lead to a node? */
    ghost predicate CursorSet()
      reads this
    {
      bracketRoot.Some? && IsPath(root, bracketRoot.value)
    }

    constructor ()
      ensures Valid() && Snapshot() == Fresh(false) && bracketRoot == None
    {
      previousState, state := Unknown, Unknown;
      elementLength, storeRaw := 0, false;
      element, elementLengthText := [], [];
      targetQueue, bracketRoot, root := [], None, BLANK;
    }

    method StoreRawBencode()
      requires Valid()
      modifies this`storeRaw
      ensures Valid() && Snapshot() == old(Snapshot()).(storeRaw := true)
    {
      storeRaw := true;
    }

    method PushToTarget(child: Target)
      requires Valid()
      modifies this`root, this`targetQueue
      ensures Valid() && Snapshot() == BencodeMachine.PushToTarget(old(Snapshot()), child)
    {
      ghost var before := Snapshot();
      if |targetQueue| == 0 {
        root := child;
        if CanHaveChildren(child) {
          targetQueue := targetQueue + [[]];
        }
        assert Snapshot() == BencodeMachine.PushToTarget(before, child);
        return;
      }

      var parent := targetQueue[|targetQueue| - 1];
      OpenPathIsPath(root, parent);
      var node := Get(root, parent);
      if node.kind == Lists {
        root := Graft(root, parent, [], node.(list := node.list + [child]));
        if CanHaveChildren(child) {
          targetQueue := targetQueue + [parent + [Index(|node.list|)]];
        }
      }

      if node.kind == Dictionaries {
        var key := node.latestKey;
        if key == [] {
          if child.kind != Strings {
            GraftSame(root, parent);
            assert Snapshot() == BencodeMachine.PushToTarget(before, child);
            return;
          }
          root := Graft(root, parent, [], node.(latestKey := child.text));
        } else {
          root := Graft(root, parent, [], node.(dict := node.dict[key := child], latestKey := []));
        }
        if CanHaveChildren(child) {
          targetQueue := targetQueue + [parent + [Key(key)]];
        }
      }
      assert Snapshot() == BencodeMachine.PushToTarget(before, child);
    }

    method EndTarget() returns (r: Outcome<()>)
      requires Valid()
      modifies this`targetQueue
      ensures Ended(r, BencodeMachine.EndTarget(old(Snapshot())))
    {
      ghost var before := Snapshot();
      if |targetQueue| == 0 {
        return Fails(Undefined);
      }
      targetQueue := targetQueue[..|targetQueue| - 1];
      assert BencodeMachine.EndTarget(before) == Ok(Snapshot());
      return Ok(());
    }

    method SwitchState(newState: Mode) returns (r: Outcome<()>)
      requires Valid()
      modifies this
      ensures bracketRoot == old(bracketRoot)
      ensures Ended(r, BencodeMachine.SwitchState(old(Snapshot()), newState))
    {
      hide BencodeMachine.PushToTarget, IsOpenPath, Prefixes;
      ghost var before := Snapshot().(mode := newState);
      previousState := state;
      state := newState;

      if previousState == ParsingWordLength {
        var n := Stol(elementLengthText);
        if n.Fails? {
          return Fails(n.fault);
        }
        elementLength := ToSizeT(n.value);
        elementLengthText := [];
      } else if previousState == ParsingWord {
        PushToTarget(StringTarget(element));
        element := [];
        assert Snapshot() == BencodeMachine.PushToTarget(before, StringTarget(before.element)).(element := []);
      } else if previousState == ParsingInteger {
        var n := Stol(element);
        if n.Fails? {
          return Fails(n.fault);
        }
        PushToTarget(IntegerTarget(n.value));
        element := [];
        assert Snapshot() == BencodeMachine.PushToTarget(before, IntegerTarget(n.value)).(element := []);
      }
      return Ok(());
    }

    /** The call ended as the machine says: with the same fault, or in the same state. */
    ghost predicate Ended(r: Outcome<()>, expected: Outcome<State>)
      reads this
    {
      match r
      case Ok(_) => Valid() && expected == Ok(Snapshot())
      case Fails(f) => expected == Fails(f)
    }

    method ConsumeState(c: byte) returns (r: Outcome<()>)
      requires Valid()
      modifies this
      ensures bracketRoot == old(bracketRoot)
      ensures Ended(r, BencodeMachine.ConsumeState(old(Snapshot()), c))
    {
      state := Unknown;
      r := Ok(());
      match c {
        case 105 =>
          state := ParsingInteger;
        case 108 =>
          PushToTarget(EMPTY_LIST);
          state := ParsingList;
        case 100 =>
          PushToTarget(EMPTY_DICT);
          state := ParsingDictionary;
        case 101 =>
          r := EndTarget();
        case 0 =>
          state := Unknown;
        case _ =>
          if IsDigit(c) {
            state := ParsingWordLength;
            elementLengthText := elementLengthText + [c];
          }
      }
    }

    /** Every open container notes the byte, each through its own pointer. */
    method PushRawBencode(c: byte)
      requires Valid() && storeRaw
      modifies this`root
      ensures Valid() && Snapshot() == Noted(old(Snapshot()), [c])
    {
      if targetQueue != [] {
        ghost var s, before, p := Snapshot(), root, Last(targetQueue);
        OpenPathIsPath(root, p);
        var i := 0;
        while i < |targetQueue|
          invariant 0 <= i <= |targetQueue|
          invariant root == NotedTop(before, p, i, [c])
        {
          NotedTopNext(before, p, i, [c]);
          root := Graft(root, targetQueue[i], [], Note(Get(root, targetQueue[i]), [c]));
          i := i + 1;
        }
        NotedTopAll(before, p, [c]);
        assert Snapshot() == Noted(s, [c]);
      }
    }

    method ConsumeByte(c: byte) returns (r: Outcome<()>)
      requires Valid()
      modifies this
      ensures bracketRoot == old(bracketRoot)
      ensures Ended(r, BencodeMachine.ConsumeByte(old(Snapshot()), c))
    {
      if storeRaw {
        PushRawBencode(c);
      } else {
        NotedWithoutRaw(Snapshot(), [c]);
      }

      r := Ok(());
      match state {
        case ParsingInteger =>
          if !IsDigit(c) && c != 45 {
            r := SwitchState(Unknown);
            return;
          }
          element := element + [c];
        case ParsingWord =>
          element := element + [c];
          elementLength := Decrement(elementLength);
          if elementLength == 0 {
            r := SwitchState(Unknown);
            return;
          }
        case ParsingWordLength =>
          if !IsDigit(c) {
            r := SwitchState(ParsingWord);
            return;
          }
          elementLengthText := elementLengthText + [c];
        case ParsingList =>
          r := ConsumeState(c);
        case _ =>
          r := ConsumeState(c);
      }
    }

    /** `from_buffer` and `from_string`: on success the cursor is back at the root. */
    method FromBuffer(data: seq<byte>) returns (r: Outcome<()>)
      requires Valid()
      modifies this
      ensures Ended(r, Run(old(Snapshot()), data))
      ensures r.Ok? ==> bracketRoot == Some([]) && CursorSet()
    {
      hide Run, BencodeMachine.ConsumeByte, IsOpenPath, Prefixes;
      RunNone(Snapshot());
      assert data[..0] == [];
      var i := 0;
      while i < |data|
        invariant 0 <= i <= |data|
        invariant Valid() && Run(old(Snapshot()), data[..i]) == Ok(Snapshot())
      {
        assert data[..i + 1] == data[..i] + [data[i]];
        RunConcat(old(Snapshot()), data[..i], [data[i]]);
        RunOne(Snapshot(), data[i]);
        r := ConsumeByte(data[i]);
        if r.Fails? {
          assert data == data[..i + 1] + data[i + 1..];
          RunConcat(old(Snapshot()), data[..i + 1], data[i + 1..]);
          return;
        }
        i := i + 1;
      }
      assert data[..i] == data;
      bracketRoot := Some([]);
      return Ok(());
    }

    /** `operator[]`; a subscript that throws leaves the cursor where it was. */
    method At(s: Step) returns (r: Outcome<()>)
      requires CursorSet()
      modifies this`bracketRoot
      ensures CursorSet()
      ensures match Subscript(root, old(bracketRoot.value), s)
              case Ok(p) => r == Ok(()) && bracketRoot == Some(p)
              case Fails(f) => r == Fails(f) && bracketRoot == old(bracketRoot)
    {
      var node := Get(root, bracketRoot.value);
      IsPathExtend(root, bracketRoot.value, s);
      if node.kind != (if s.Index? then Lists else Dictionaries) {
        return Ok(());
      }
      if !HasChild(node, s) {
        return Fails(OutOfRange);
      }
      bracketRoot := Some(bracketRoot.value + [s]);
      return Ok(());
    }

    method Type() returns (kind: TargetType)
      requires CursorSet()
      modifies this`bracketRoot
      ensures kind == Get(root, old(bracketRoot.value)).kind
      ensures CursorSet() && bracketRoot == Some([])
    {
      kind := Get(root, bracketRoot.value).kind;
      bracketRoot := Some([]);
    }

    method AsStr() returns (r: Outcome<seq<byte>>)
      requires CursorSet()
      modifies this`bracketRoot
      ensures var t := Get(root, old(bracketRoot.value));
              r == if t.kind == Strings then Ok(t.text) else Fails(AssertionFailed)
      ensures CursorSet() && (r.Ok? ==> bracketRoot == Some([]))
    {
      var t := Get(root, bracketRoot.value);
      if t.kind != Strings {
        return Fails(AssertionFailed);
      }
      bracketRoot := Some([]);
      return Ok(t.text);
    }

    method AsInt() returns (r: Outcome<int>)
      requires CursorSet()
      modifies this`bracketRoot
      ensures var t := Get(root, old(bracketRoot.value));
              r == if t.kind == Integers then Ok(t.number) else Fails(AssertionFailed)
      ensures CursorSet() && (r.Ok? ==> bracketRoot == Some([]))
    {
      var t := Get(root, bracketRoot.value);
      if t.kind != Integers {
        return Fails(AssertionFailed);
      }
      bracketRoot := Some([]);
      return Ok(t.number);
    }

    method AsRaw() returns (raw: seq<byte>)
      requires CursorSet()
      modifies this`bracketRoot
      ensures raw == Get(root, old(bracketRoot.value)).raw
      ensures CursorSet() && bracketRoot == Some([])
    {
      raw := Get(root, bracketRoot.value).raw;
      bracketRoot := Some([]);
    }

    /** A chain of subscripts. */
    method Walk(steps: seq<Step>) returns (r: Outcome<()>)
      requires CursorSet() && bracketRoot == Some([])
      modifies this`bracketRoot
      ensures CursorSet()
      ensures match Walked(root, [], steps)
              case Ok(p) => r == Ok(()) && bracketRoot == Some(p)
              case Fails(f) => r == Fails(f)
    {
      var i := 0;
      while i < |steps|
        invariant 0 <= i <= |steps|
        invariant CursorSet() && Walked(root, [], steps[..i]) == Ok(bracketRoot.value)
      {
        assert steps[..i + 1] == steps[..i] + [steps[i]];
        WalkedMore(root, [], steps[..i], steps[i]);
        r := At(steps[i]);
        if r.Fails? {
          assert steps == steps[..i + 1] + steps[i + 1..];
          WalkFails(root, steps[..i + 1], steps[i + 1..]);
          return;
        }
        i := i + 1;
      }
      assert steps[..i] == steps;
      return Ok(());
    }

    /** A complete access reads the node that its subscripts find from the root, whatever was
        accessed before, and leaves the cursor at the root for the next one. */
    method TypeAt(steps: seq<Step>) returns (r: Outcome<TargetType>)
      requires CursorSet() && bracketRoot == Some([])
      modifies this`bracketRoot
      ensures CursorSet()
      ensures match Lookup(root, steps)
              case Ok(t) => r == Ok(t.kind) && bracketRoot == Some([])
              case Fails(f) => r == Fails(f)
    {
      var w := Walk(steps);
      if w.Fails? {
        return Fails(w.fault);
      }
      var kind := Type();
      return Ok(kind);
    }

    method StrAt(steps: seq<Step>) returns (r: Outcome<seq<byte>>)
      requires CursorSet() && bracketRoot == Some([])
      modifies this`bracketRoot
      ensures CursorSet() && (r.Ok? ==> bracketRoot == Some([]))
      ensures match Lookup(root, steps)
              case Ok(t) => r == if t.kind == Strings then Ok(t.text) else Fails(AssertionFailed)
              case Fails(f) => r == Fails(f)
    {
      var w := Walk(steps);
      if w.Fails? {
        return Fails(w.fault);
      }
      r := AsStr();
    }

    method IntAt(steps: seq<Step>) returns (r: Outcome<int>)
      requires CursorSet() && bracketRoot == Some([])
      modifies this`bracketRoot
      ensures CursorSet() && (r.Ok? ==> bracketRoot == Some([]))
      ensures match Lookup(root, steps)
              case Ok(t) => r == if t.kind == Integers then Ok(t.number) else Fails(AssertionFailed)
              case Fails(f) => r == Fails(f)
    {
      var w := Walk(steps);
      if w.Fails? {
        return Fails(w.fault);
      }
      r := AsInt();
    }

    method RawAt(steps: seq<Step>) returns (r: Outcome<seq<byte>>)
      requires CursorSet() && bracketRoot == Some([])
      modifies this`bracketRoot
      ensures CursorSet() && (r.Ok? ==> bracketRoot == Some([]))
      ensures match Lookup(root, steps)
              case Ok(t) => r == Ok(t.raw)
              case Fails(f) => r == Fails(f)
    {
      var w := Walk(steps);
      if w.Fails? {
        return Fails(w.fault);
      }
      var raw := AsRaw();
      return Ok(raw);
    }
  }

  lemma NotedWithoutRaw(s: State, bs: seq<byte>)
    requires Inv(s) && !s.storeRaw
    ensures Noted(s, bs) == s
  {
    if s.queue != [] {
      OpenPathIsPath(s.root, Last(s.queue));
      var u := OpenNode(s);
      assert u.raw + [] == u.raw;
      GraftSame(s.root, Last(s.queue));
    }
  }

  lemma {:induction false} WalkFails(root: Target, steps: seq<Step>, more: seq<Step>)
    requires Walked(root, [], steps).Fails?
    ensures Walked(root, [], steps + more) == Walked(root, [], steps)
    decreases more
  {
    if more == [] {
      assert steps + more == steps;
    } else {
      WalkedMore(root, [], steps, more[0]);
      WalkFails(root, steps + [more[0]], more[1..]);
      assert steps + [more[0]] + more[1..] == steps + more;
    }
  }
}
