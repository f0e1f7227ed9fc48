/**
 Exactly when the source's parser returns: what it must get through before it leaves an offset is a
 graph over finitely many offsets, and it fails to return exactly when that graph leads round.
 */
module BencodingReturns {
  import opened Options
  import opened Bencoding
  import opened BencodingReader

  /** A call of `_bdecode_at`, or a round of one of its loops, at an offset. */
  datatype Node = At(i: int) | InList(i: int) | InDict(i: int)

  datatype Exit = Leaves(next: int) | Throws

  function ExitOf<T>(r: Option<Parsed<T>>): Option<Exit> {
    match r
    case None => None
    case Some(Raised(_)) => Some(Throws)
    case Some(Parsed(_, next)) => Some(Leaves(next))
  }

  predicate Goes(exit: Option<Exit>) {
    exit.Some? && exit.value.Leaves?
  }

  function Kind(data: Bytes, i: int): Bytes {
    Slice(data, i, i + 1)
  }

  /** A loop at this offset has another round. */
  predicate Continues(data: Bytes, i: int) {
    i < |data| && Kind(data, i) != ['e']
  }

  predicate Nested(data: Bytes, i: int) {
    Kind(data, i) in {['l'], ['d']}
  }

  function Leaf(parse: Conversion, data: Bytes, i: int): Exit {
    ExitOf(Some(if Kind(data, i) == ['i'] then ReadInt(parse, data, i) else ReadText(parse, data, i))).value
  }

  /** The parser's way through the document without the values it builds. */
  function Walk(parse: Conversion, data: Bytes, n: Node, calls: nat): Option<Exit>
    decreases calls, 0
  {
    if calls == 0 then None
    else
      match n
      case At(i) =>
        if Kind(data, i) == ['l'] then Walk(parse, data, InList(i + 1), calls - 1)
        else if Kind(data, i) == ['d'] then Walk(parse, data, InDict(i + 1), calls - 1)
        else Some(Leaf(parse, data, i))
      case InList(i) =>
        if !Continues(data, i) then Some(if i < |data| then Leaves(i + 1) else Throws)
        else
          var item := Walk(parse, data, At(i), calls - 1);
          if Goes(item) then Walk(parse, data, InList(item.value.next), calls - 1) else item
      case InDict(i) =>
        if !Continues(data, i) then Some(if i < |data| then Leaves(i + 1) else Throws)
        else
          var entry := WalkEntry(parse, data, i, calls - 1);
          if Goes(entry) then Walk(parse, data, InDict(entry.value.next), calls - 1) else entry
  }

  function WalkEntry(parse: Conversion, data: Bytes, i: int, calls: nat): Option<Exit>
    decreases calls, 1
  {
    var key := Walk(parse, data, At(i), calls);
    if Goes(key) then
      var value := Walk(parse, data, At(key.value.next), calls);
      if Goes(value) && Nested(data, i) then Some(Throws) else value
    else key
  }

  // ----- the walk is the parser's

  lemma KeyKind(parse: Conversion, data: Bytes, i: int, calls: nat)
    ensures forall value, next :: ReadAt(parse, data, i, calls) == Some(Parsed(value, next)) ==>
              (AsKey(value).None? <==> Nested(data, i))
  {
  }

  lemma ExitOfList(r: Option<Parsed<seq<Value>>>)
    ensures ExitOf(AsList(r)) == ExitOf(r)
  {
  }

  lemma ExitOfDict(r: Option<Parsed<seq<Entry>>>)
    ensures ExitOf(AsDict(r)) == ExitOf(r)
  {
  }

  lemma AtLeaf(parse: Conversion, data: Bytes, i: int, calls: nat)
    requires calls > 0 && !Nested(data, i)
    ensures ExitOf(ReadAt(parse, data, i, calls)) == Some(Leaf(parse, data, i)) == Walk(parse, data, At(i), calls)
  {
  }

  lemma AtList(parse: Conversion, data: Bytes, i: int, calls: nat)
    requires calls > 0 && Kind(data, i) == ['l']
    ensures ReadAt(parse, data, i, calls) == AsList(ReadList(parse, data, i + 1, [], calls - 1))
    ensures Walk(parse, data, At(i), calls) == Walk(parse, data, InList(i + 1), calls - 1)
  {
  }

  lemma AtDict(parse: Conversion, data: Bytes, i: int, calls: nat)
    requires calls > 0 && Kind(data, i) == ['d']
    ensures ReadAt(parse, data, i, calls) == AsDict(ReadDict(parse, data, i + 1, [], calls - 1))
    ensures Walk(parse, data, At(i), calls) == Walk(parse, data, InDict(i + 1), calls - 1)
  {
  }

  lemma {:induction false} WalkAgrees(parse: Conversion, data: Bytes, i: int, calls: nat)
    ensures ExitOf(ReadAt(parse, data, i, calls)) == Walk(parse, data, At(i), calls)
    decreases calls, 0
  {
    if calls > 0 {
      if Kind(data, i) == ['l'] {
        AtList(parse, data, i, calls);
        ListAgrees(parse, data, i + 1, [], calls - 1);
        ExitOfList(ReadList(parse, data, i + 1, [], calls - 1));
      } else if Kind(data, i) == ['d'] {
        AtDict(parse, data, i, calls);
        DictAgrees(parse, data, i + 1, [], calls - 1);
        ExitOfDict(ReadDict(parse, data, i + 1, [], calls - 1));
      } else {
        AtLeaf(parse, data, i, calls);
      }
    }
  }

  lemma {:induction false} ListAgrees(parse: Conversion, data: Bytes, i: int, out: seq<Value>, calls: nat)
    ensures ExitOf(ReadList(parse, data, i, out, calls)) == Walk(parse, data, InList(i), calls)
    decreases calls, 0
  {
    if calls > 0 && Continues(data, i) {
      WalkAgrees(parse, data, i, calls - 1);
      match ReadAt(parse, data, i, calls - 1)
      case Some(Parsed(value, next)) => ListAgrees(parse, data, next, out + [value], calls - 1);
      case _ =>
    }
  }

  lemma {:induction false} EntryAgrees(parse: Conversion, data: Bytes, i: int, calls: nat)
    ensures ExitOf(ReadEntry(parse, data, i, calls)) == WalkEntry(parse, data, i, calls)
    decreases calls, 1
  {
    WalkAgrees(parse, data, i, calls);
    KeyKind(parse, data, i, calls);
    match ReadAt(parse, data, i, calls)
    case Some(Parsed(_, afterKey)) => WalkAgrees(parse, data, afterKey, calls);
    case _ =>
  }

  lemma {:induction false} DictAgrees(parse: Conversion, data: Bytes, i: int, out: seq<Entry>, calls: nat)
    ensures ExitOf(ReadDict(parse, data, i, out, calls)) == Walk(parse, data, InDict(i), calls)
    decreases calls, 0
  {
    if calls > 0 && Continues(data, i) {
      EntryAgrees(parse, data, i, calls - 1);
      match ReadEntry(parse, data, i, calls - 1)
      case Some(Parsed(entry, next)) => DictAgrees(parse, data, next, Put(out, entry.key, entry.value), calls - 1);
      case _ =>
    }
  }

  // ----- what must return first

  /** Whatever it has returned stays what it returns. */
  lemma {:induction false} WalkKeeps(parse: Conversion, data: Bytes, n: Node, calls: nat, more: nat)
    requires calls <= more
    ensures Walk(parse, data, n, calls).Some? ==> Walk(parse, data, n, more) == Walk(parse, data, n, calls)
    decreases calls, 0
  {
    if calls > 0 {
      match n
      case At(i) =>
        WalkKeeps(parse, data, InList(i + 1), calls - 1, more - 1);
        WalkKeeps(parse, data, InDict(i + 1), calls - 1, more - 1);
      case InList(i) => ListKeeps(parse, data, i, calls, more);
      case InDict(i) => DictKeeps(parse, data, i, calls, more);
    }
  }

  lemma {:induction false} ListKeeps(parse: Conversion, data: Bytes, i: int, calls: nat, more: nat)
    requires 0 < calls <= more
    ensures Walk(parse, data, InList(i), calls).Some? ==> Walk(parse, data, InList(i), more) == Walk(parse, data, InList(i), calls)
    decreases calls - 1, 2
  {
    WalkKeeps(parse, data, At(i), calls - 1, more - 1);
    var item := Walk(parse, data, At(i), calls - 1);
    if Goes(item) {
      WalkKeeps(parse, data, InList(item.value.next), calls - 1, more - 1);
    }
  }

  lemma {:induction false} EntryKeeps(parse: Conversion, data: Bytes, i: int, calls: nat, more: nat)
    requires calls <= more
    ensures WalkEntry(parse, data, i, calls).Some? ==> WalkEntry(parse, data, i, more) == WalkEntry(parse, data, i, calls)
    decreases calls, 1
  {
    WalkKeeps(parse, data, At(i), calls, more);
    var key := Walk(parse, data, At(i), calls);
    if Goes(key) {
      WalkKeeps(parse, data, At(key.value.next), calls, more);
    }
  }

  lemma {:induction false} DictKeeps(parse: Conversion, data: Bytes, i: int, calls: nat, more: nat)
    requires 0 < calls <= more
    ensures Walk(parse, data, InDict(i), calls).Some? ==> Walk(parse, data, InDict(i), more) == Walk(parse, data, InDict(i), calls)
    decreases calls - 1, 2
  {
    EntryKeeps(parse, data, i, calls - 1, more - 1);
    var entry := WalkEntry(parse, data, i, calls - 1);
    if Goes(entry) {
      WalkKeeps(parse, data, InDict(entry.value.next), calls - 1, more - 1);
    }
  }

  ghost predicate Returns(parse: Conversion, data: Bytes, n: Node) {
    exists calls: nat :: Walk(parse, data, n, calls).Some?
  }

  ghost predicate LeavesTo(parse: Conversion, data: Bytes, i: int, next: int) {
    exists calls: nat :: Walk(parse, data, At(i), calls) == Some(Leaves(next))
  }

  lemma LeavesOnce(parse: Conversion, data: Bytes, i: int, next: int, calls: nat)
    requires LeavesTo(parse, data, i, next) && Walk(parse, data, At(i), calls).Some?
    ensures Walk(parse, data, At(i), calls) == Some(Leaves(next))
  {
    var other: nat :| Walk(parse, data, At(i), other) == Some(Leaves(next));
    if calls <= other {
      WalkKeeps(parse, data, At(i), calls, other);
    } else {
      WalkKeeps(parse, data, At(i), other, calls);
    }
  }

  /** `n` goes through `m` on its way. */
  ghost predicate Demands(parse: Conversion, data: Bytes, n: Node, m: Node) {
    match n
    case At(i) => (Kind(data, i) == ['l'] && m == InList(i + 1)) || (Kind(data, i) == ['d'] && m == InDict(i + 1))
    case InList(i) => Continues(data, i) && (m == At(i) || (m.InList? && LeavesTo(parse, data, i, m.i)))
    case InDict(i) =>
      && Continues(data, i)
      && (|| m == At(i)
          || (m.At? && LeavesTo(parse, data, i, m.i))
          || (m.InDict? && !Nested(data, i) &&
              exists afterKey :: LeavesTo(parse, data, i, afterKey) && LeavesTo(parse, data, afterKey, m.i)))
  }

  lemma ListDemands(parse: Conversion, data: Bytes, i: int, m: Node, calls: nat)
    requires Walk(parse, data, InList(i), calls).Some? && Demands(parse, data, InList(i), m)
    ensures calls > 0 && Walk(parse, data, m, calls - 1).Some?
  {
    if m != At(i) {
      LeavesOnce(parse, data, i, m.i, calls - 1);
    }
  }

  lemma DictDemands(parse: Conversion, data: Bytes, i: int, m: Node, calls: nat)
    requires Walk(parse, data, InDict(i), calls).Some? && Demands(parse, data, InDict(i), m)
    ensures calls > 0 && Walk(parse, data, m, calls - 1).Some?
  {
    if m.InDict? {
      var afterKey :| LeavesTo(parse, data, i, afterKey) && LeavesTo(parse, data, afterKey, m.i);
      LeavesOnce(parse, data, i, afterKey, calls - 1);
      LeavesOnce(parse, data, afterKey, m.i, calls - 1);
    } else if m != At(i) {
      LeavesOnce(parse, data, i, m.i, calls - 1);
    }
  }

  lemma DemandedReturns(parse: Conversion, data: Bytes, n: Node, m: Node, calls: nat)
    requires Walk(parse, data, n, calls).Some? && Demands(parse, data, n, m)
    ensures calls > 0 && Walk(parse, data, m, calls - 1).Some?
  {
    match n
    case At(i) =>
    case InList(i) => ListDemands(parse, data, i, m, calls);
    case InDict(i) => DictDemands(parse, data, i, m, calls);
  }

  function Max(a: nat, b: nat): nat {
    if a < b then b else a
  }

  lemma ListReturns(parse: Conversion, data: Bytes, i: int)
    requires forall m :: Demands(parse, data, InList(i), m) ==> Returns(parse, data, m)
    ensures Returns(parse, data, InList(i))
  {
    if Continues(data, i) {
      assert Demands(parse, data, InList(i), At(i));
      var c: nat :| Walk(parse, data, At(i), c).Some?;
      var item := Walk(parse, data, At(i), c);
      var d: nat := 0;
      if item.value.Leaves? {
        assert LeavesTo(parse, data, i, item.value.next);
        assert Demands(parse, data, InList(i), InList(item.value.next));
        d :| Walk(parse, data, InList(item.value.next), d).Some?;
        WalkKeeps(parse, data, InList(item.value.next), d, Max(c, d));
      }
      WalkKeeps(parse, data, At(i), c, Max(c, d));
      assert Walk(parse, data, InList(i), Max(c, d) + 1).Some?;
    } else {
      assert Walk(parse, data, InList(i), 1).Some?;
    }
  }

  lemma DictReturns(parse: Conversion, data: Bytes, i: int)
    requires forall m :: Demands(parse, data, InDict(i), m) ==> Returns(parse, data, m)
    ensures Returns(parse, data, InDict(i))
  {
    if Continues(data, i) {
      assert Demands(parse, data, InDict(i), At(i));
      var c: nat :| Walk(parse, data, At(i), c).Some?;
      var key := Walk(parse, data, At(i), c);
      if key.value.Leaves? {
        assert LeavesTo(parse, data, i, key.value.next);
        assert Demands(parse, data, InDict(i), At(key.value.next));
        var d: nat :| Walk(parse, data, At(key.value.next), d).Some?;
        EntryReturns(parse, data, i, key.value.next, c, d);
      } else {
        assert Walk(parse, data, InDict(i), c + 1).Some?;
      }
    } else {
      assert Walk(parse, data, InDict(i), 1).Some?;
    }
  }

  lemma EntryReturns(parse: Conversion, data: Bytes, i: int, afterKey: int, c: nat, d: nat)
    requires forall m :: Demands(parse, data, InDict(i), m) ==> Returns(parse, data, m)
    requires Continues(data, i) && Walk(parse, data, At(i), c) == Some(Leaves(afterKey))
    requires Walk(parse, data, At(afterKey), d).Some?
    ensures Returns(parse, data, InDict(i))
  {
    var value := Walk(parse, data, At(afterKey), d);
    var e: nat := 0;
    if value.value.Leaves? && !Nested(data, i) {
      var next := value.value.next;
      assert LeavesTo(parse, data, i, afterKey) && LeavesTo(parse, data, afterKey, next);
      assert Demands(parse, data, InDict(i), InDict(next));
      e :| Walk(parse, data, InDict(next), e).Some?;
      WalkKeeps(parse, data, InDict(next), e, Max(c, Max(d, e)));
    }
    WalkKeeps(parse, data, At(i), c, Max(c, Max(d, e)));
    WalkKeeps(parse, data, At(afterKey), d, Max(c, Max(d, e)));
    assert Walk(parse, data, InDict(i), Max(c, Max(d, e)) + 1).Some?;
  }

  /** Once everything on its way returns, a node returns. */
  lemma NodeReturns(parse: Conversion, data: Bytes, n: Node)
    requires forall m :: Demands(parse, data, n, m) ==> Returns(parse, data, m)
    ensures Returns(parse, data, n)
  {
    match n
    case At(i) =>
      if Nested(data, i) {
        var m := if Kind(data, i) == ['l'] then InList(i + 1) else InDict(i + 1);
        assert Demands(parse, data, n, m);
        var c: nat :| Walk(parse, data, m, c).Some?;
        assert Walk(parse, data, n, c + 1).Some?;
      } else {
        assert Walk(parse, data, n, 1).Some?;
      }
    case InList(i) => ListReturns(parse, data, i);
    case InDict(i) => DictReturns(parse, data, i);
  }

  // ----- a way round never returns

  ghost predicate Way(parse: Conversion, data: Bytes, way: seq<Node>) {
    forall k :: 0 <= k < |way| - 1 ==> LeadsOn(parse, data, way, k)
  }

  ghost predicate LeadsOn(parse: Conversion, data: Bytes, way: seq<Node>, k: nat)
    requires k < |way| - 1
  {
    Demands(parse, data, way[k], way[k + 1])
  }

  /** From `n` a way leads to a node it has passed. */
  ghost predicate Recurs(parse: Conversion, data: Bytes, n: Node) {
    exists way, j, k :: Way(parse, data, way) && 0 <= j < k < |way| && way[0] == n && way[j] == way[k]
  }

  lemma {:induction false} WayReturns(parse: Conversion, data: Bytes, way: seq<Node>, j: nat, k: nat, calls: nat)
    requires Way(parse, data, way) && j <= k < |way| && Walk(parse, data, way[j], calls).Some?
    ensures calls >= k - j && Walk(parse, data, way[k], calls - (k - j)).Some?
    decreases k - j
  {
    if j < k {
      assert LeadsOn(parse, data, way, j);
      DemandedReturns(parse, data, way[j], way[j + 1], calls);
      WayReturns(parse, data, way, j + 1, k, calls - 1);
    }
  }

  lemma {:induction false} RoundNeverReturns(parse: Conversion, data: Bytes, way: seq<Node>, j: nat, k: nat, calls: nat)
    requires Way(parse, data, way) && j < k < |way| && way[j] == way[k]
    ensures Walk(parse, data, way[j], calls).None?
    decreases calls
  {
    if Walk(parse, data, way[j], calls).Some? {
      WayReturns(parse, data, way, j, k, calls);
      RoundNeverReturns(parse, data, way, j, k, calls - (k - j));
    }
  }

  lemma RecursNeverReturns(parse: Conversion, data: Bytes, n: Node)
    requires Recurs(parse, data, n)
    ensures !Returns(parse, data, n)
  {
    var way, j, k :| Way(parse, data, way) && 0 <= j < k < |way| && way[0] == n && way[j] == way[k];
    if Returns(parse, data, n) {
      var calls: nat :| Walk(parse, data, n, calls).Some?;
      WayReturns(parse, data, way, 0, j, calls);
      RoundNeverReturns(parse, data, way, j, k, calls - j);
    }
  }

  // ----- only finitely many offsets

  function Nodes(lo: int, hi: int): set<Node> {
    (set i | lo <= i <= hi :: At(i)) + (set i | lo <= i <= hi :: InList(i)) + (set i | lo <= i <= hi :: InDict(i))
  }

  /** Every length that stands anywhere in the document. */
  function Lengths(parse: Conversion, data: Bytes): set<int> {
    set a, b | 0 <= a <= b <= |data| && parse(data[a..b]).Some? :: parse(data[a..b]).value
  }

  lemma LowerBound(numbers: set<int>) returns (lo: int)
    ensures forall x :: x in numbers ==> lo <= x
  {
    if x :| x in numbers {
      var rest := numbers - {x};
      var least := LowerBound(rest);
      lo := if x < least then x else least;
      assert forall y :: y in numbers ==> y == x || y in rest;
    } else {
      lo := 0;
    }
  }

  ghost predicate Ranges(parse: Conversion, data: Bytes, lo: int, hi: int) {
    lo <= -|data| && |data| <= hi && forall length :: length in Lengths(parse, data) ==> lo <= length
  }

  lemma SliceStands(data: Bytes, a: int, b: int) returns (x: nat, y: nat)
    ensures x <= y <= |data| && Slice(data, a, b) == data[x..y]
  {
    x, y := Clamp(|data|, a), Clamp(|data|, b);
    if x > y {
      x, y := 0, 0;
    }
  }

  lemma TextInRange(parse: Conversion, data: Bytes, i: int, lo: int, hi: int)
    requires Ranges(parse, data, lo, hi)
    ensures ReadText(parse, data, i).Parsed? ==> lo <= ReadText(parse, data, i).next <= hi
  {
    var colon := FindFrom(data, ':', i);
    if colon.Some? {
      var x, y := SliceStands(data, i, colon.value);
      if parse(data[x..y]).Some? {
        assert parse(data[x..y]).value in Lengths(parse, data);
      }
    }
  }

  lemma LeafInRange(parse: Conversion, data: Bytes, i: int, lo: int, hi: int)
    requires Ranges(parse, data, lo, hi)
    ensures Leaf(parse, data, i).Leaves? ==> lo <= Leaf(parse, data, i).next <= hi
  {
    TextInRange(parse, data, i, lo, hi);
  }

  ghost predicate Within(exit: Option<Exit>, lo: int, hi: int) {
    Goes(exit) ==> lo <= exit.value.next <= hi
  }

  /** Wherever the walk begins, it leaves to an offset in the range. */
  lemma {:induction false} WalkInRange(parse: Conversion, data: Bytes, n: Node, calls: nat, lo: int, hi: int)
    requires Ranges(parse, data, lo, hi) && lo <= n.i
    ensures Within(Walk(parse, data, n, calls), lo, hi)
    decreases calls, 0
  {
    if calls > 0 {
      match n
      case At(i) =>
        LeafInRange(parse, data, i, lo, hi);
        WalkInRange(parse, data, InList(i + 1), calls - 1, lo, hi);
        WalkInRange(parse, data, InDict(i + 1), calls - 1, lo, hi);
      case InList(i) => ListInRange(parse, data, i, calls, lo, hi);
      case InDict(i) => DictInRange(parse, data, i, calls, lo, hi);
    }
  }

  lemma {:induction false} ListInRange(parse: Conversion, data: Bytes, i: int, calls: nat, lo: int, hi: int)
    requires Ranges(parse, data, lo, hi) && lo <= i && calls > 0
    ensures Within(Walk(parse, data, InList(i), calls), lo, hi)
    decreases calls - 1, 2
  {
    WalkInRange(parse, data, At(i), calls - 1, lo, hi);
    var item := Walk(parse, data, At(i), calls - 1);
    if Goes(item) {
      WalkInRange(parse, data, InList(item.value.next), calls - 1, lo, hi);
    }
  }

  lemma {:induction false} DictInRange(parse: Conversion, data: Bytes, i: int, calls: nat, lo: int, hi: int)
    requires Ranges(parse, data, lo, hi) && lo <= i && calls > 0
    ensures Within(Walk(parse, data, InDict(i), calls), lo, hi)
    decreases calls - 1, 2
  {
    EntryInRange(parse, data, i, calls - 1, lo, hi);
    var entry := WalkEntry(parse, data, i, calls - 1);
    if Goes(entry) {
      WalkInRange(parse, data, InDict(entry.value.next), calls - 1, lo, hi);
    }
  }

  lemma {:induction false} EntryInRange(parse: Conversion, data: Bytes, i: int, calls: nat, lo: int, hi: int)
    requires Ranges(parse, data, lo, hi) && lo <= i
    ensures Within(WalkEntry(parse, data, i, calls), lo, hi)
    decreases calls, 1
  {
    WalkInRange(parse, data, At(i), calls, lo, hi);
    var key := Walk(parse, data, At(i), calls);
    if Goes(key) {
      WalkInRange(parse, data, At(key.value.next), calls, lo, hi);
    }
  }

  lemma NestedInside(data: Bytes, i: int)
    requires Nested(data, i)
    ensures i < |data|
  {
  }

  lemma LeavesInRange(parse: Conversion, data: Bytes, i: int, next: int, lo: int, hi: int)
    requires Ranges(parse, data, lo, hi) && lo <= i && LeavesTo(parse, data, i, next)
    ensures lo <= next <= hi
  {
    var calls: nat :| Walk(parse, data, At(i), calls) == Some(Leaves(next));
    WalkInRange(parse, data, At(i), calls, lo, hi);
  }

  lemma DemandsInRange(parse: Conversion, data: Bytes, n: Node, m: Node, lo: int, hi: int)
    requires Ranges(parse, data, lo, hi) && lo <= n.i <= hi && Demands(parse, data, n, m)
    ensures lo <= m.i <= hi
  {
    match n
    case At(i) => NestedInside(data, i);
    case InList(i) =>
      if m != At(i) {
        LeavesInRange(parse, data, i, m.i, lo, hi);
      }
    case InDict(i) =>
      if m.InDict? {
        var afterKey :| LeavesTo(parse, data, i, afterKey) && LeavesTo(parse, data, afterKey, m.i);
        LeavesInRange(parse, data, i, afterKey, lo, hi);
        LeavesInRange(parse, data, afterKey, m.i, lo, hi);
      } else if m != At(i) {
        LeavesInRange(parse, data, i, m.i, lo, hi);
      }
  }

  // ----- what never returns goes round

  /** A way of any length from a node that never returns. */
  lemma {:induction false} LongWay(parse: Conversion, data: Bytes, n: Node, lo: int, hi: int, steps: nat) returns (way: seq<Node>)
    requires Ranges(parse, data, lo, hi) && lo <= n.i <= hi && !Returns(parse, data, n)
    ensures |way| == steps + 1 && way[0] == n && Way(parse, data, way)
    ensures forall k :: 0 <= k < |way| ==> way[k] in Nodes(lo, hi)
    decreases steps
  {
    if steps == 0 {
      return [n];
    }
    if forall m :: Demands(parse, data, n, m) ==> Returns(parse, data, m) {
      NodeReturns(parse, data, n);
      assert false;
    }
    var m :| Demands(parse, data, n, m) && !Returns(parse, data, m);
    DemandsInRange(parse, data, n, m, lo, hi);
    var rest := LongWay(parse, data, m, lo, hi, steps - 1);
    way := [n] + rest;
    forall k | 0 <= k < |way| - 1
      ensures LeadsOn(parse, data, way, k)
    {
      if k > 0 {
        assert LeadsOn(parse, data, rest, k - 1);
      }
    }
  }

  ghost predicate NoneTwice<T>(s: seq<T>) {
    forall j, k :: 0 <= j < k < |s| ==> s[j] != s[k]
  }

  /** NoneTwice items of a finite set are no more than the set has. */
  lemma {:induction false} Pigeonhole<T>(s: seq<T>, all: set<T>)
    requires NoneTwice(s) && forall k :: 0 <= k < |s| ==> s[k] in all
    ensures |s| <= |all|
    decreases |s|
  {
    if s != [] {
      Pigeonhole(s[1..], all - {s[0]});
    }
  }

  lemma NeverReturnsRecurs(parse: Conversion, data: Bytes, n: Node)
    requires !Returns(parse, data, n)
    ensures Recurs(parse, data, n)
  {
    var least := LowerBound(Lengths(parse, data) + {n.i, -|data|});
    var hi := if n.i > |data| then n.i else |data|;
    var way := LongWay(parse, data, n, least, hi, |Nodes(least, hi)|);
    if NoneTwice(way) {
      Pigeonhole(way, Nodes(least, hi));
    }
  }

  /** For every document, offset and conversion of numbers: the parser never returns exactly when what
      it has to get through comes back to a call or a round at an offset where it has been. */
  lemma NeverReturnsExactly(parse: Conversion, data: Bytes, i: int)
    ensures (forall calls: nat :: ReadAt(parse, data, i, calls) == None) <==> Recurs(parse, data, At(i))
  {
    if Recurs(parse, data, At(i)) {
      RecursNeverReturns(parse, data, At(i));
      forall calls: nat
        ensures ReadAt(parse, data, i, calls) == None
      {
        WalkAgrees(parse, data, i, calls);
      }
    } else {
      if !Returns(parse, data, At(i)) {
        NeverReturnsRecurs(parse, data, At(i));
      }
      var calls: nat :| Walk(parse, data, At(i), calls).Some?;
      WalkAgrees(parse, data, i, calls);
    }
  }
}
