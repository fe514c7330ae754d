/**
  * iotHub_mbtcp/inc/azure_c_shared_utility/refcount.h: the REFCOUNT_ATOMIC_DONTCARE variant, in which ++ and --
  * are a load and a later store, and the schedules on which it counts as the atomic variants do.
  */
module RefcountPlain {
  import opened Refcount

  /** A plain increment or decrement by a holder, split where another holder can get in between. */
  datatype Micro = Load(who: nat) | Store(who: nat, op: Op)

  datatype Plain = Plain(cell: int, registers: map<nat, int>)

  /** What a store writes, which is also what the INC_REF or DEC_REF expression evaluates to. */
  function Written(s: Plain, who: nat, op: Op): int {
    Fit(DontCare, (if who in s.registers then s.registers[who] else 0) + Delta(op))
  }

  function PlainStep(s: Plain, m: Micro): Plain {
    match m
    case Load(who) => s.(registers := s.registers[who := s.cell])
    case Store(who, op) => s.(cell := Written(s, who, op))
  }

  function PlainRun(s: Plain, ms: seq<Micro>): Plain {
    if ms == [] then s else PlainStep(PlainRun(s, ms[..|ms| - 1]), ms[|ms| - 1])
  }

  /** One verdict a store: true for a DEC_REF that compares equal to DEC_RETURN_ZERO. */
  function PlainVerdicts(s: Plain, ms: seq<Micro>): seq<bool> {
    if ms == [] then []
    else
      var front, last := ms[..|ms| - 1], ms[|ms| - 1];
      PlainVerdicts(s, front)
      + if last.Load? then []
        else [last.op.Dec? && Written(PlainRun(s, front), last.who, last.op) == DecReturnZero(DontCare)]
  }

  /** The operations of a schedule, each at the moment of its store. */
  function Stores(ms: seq<Micro>): seq<Op> {
    if ms == [] then []
    else Stores(ms[..|ms| - 1]) + if ms[|ms| - 1].Store? then [ms[|ms| - 1].op] else []
  }

  /** After every step the plain cell is what atomic operations would have made of it. */
  predicate CountsAtomically(s: Plain, ms: seq<Micro>) {
    forall k :: 0 <= k <= |ms| ==> PlainRun(s, ms[..k]).cell == FinalCell(DontCare, s.cell, Stores(ms[..k]))
  }

  // ----- A condition on the schedule alone -----

  /** The increments less the decrements stored in a stretch of a schedule. */
  function Net(ms: seq<Micro>): int {
    if ms == [] then 0
    else Net(ms[..|ms| - 1]) + if ms[|ms| - 1].Store? then Delta(ms[|ms| - 1].op) else 0
  }

  /** Step j is the load that the store of step k builds on. */
  predicate IsLastLoad(ms: seq<Micro>, j: nat, k: nat)
    requires j < k < |ms|
  {
    ms[k].Store? && ms[j] == Load(ms[k].who) && forall i :: j < i < k ==> ms[i] != ms[j]
  }

  /** Each holder loads before it stores. */
  predicate LoadedFirst(ms: seq<Micro>) {
    forall k :: 0 <= k < |ms| && ms[k].Store? ==> exists j :: 0 <= j < k && IsLastLoad(ms, j, k)
  }

  /** Between a store and the load it builds on, the stores of all holders cancel out. */
  predicate Balanced(ms: seq<Micro>) {
    forall j, k :: 0 <= j < k < |ms| && IsLastLoad(ms, j, k) ==> Net(ms[j..k]) % VALUES == 0
  }

  // ----- Proofs -----

  lemma {:induction false} FinalCellSnoc(p: Platform, cell: int, ops: seq<Op>, op: Op)
    ensures FinalCell(p, cell, ops + [op]) == Fit(p, FinalCell(p, cell, ops) + Delta(op))
    decreases ops
  {
    if ops == [] {
      assert [] + [op] == [op];
      assert FinalCell(p, cell, [op]) == FinalCell(p, Fit(p, cell + Delta(op)), [op][1..]);
    } else {
      assert (ops + [op])[1..] == ops[1..] + [op];
      FinalCellSnoc(p, Fit(p, cell + Delta(ops[0])), ops[1..], op);
    }
  }

  lemma {:induction false} VerdictsSnoc(p: Platform, cell: int, ops: seq<Op>, op: Op)
    ensures Verdicts(p, cell, ops + [op])
            == Verdicts(p, cell, ops) + [op.Dec? && ReportsZero(p, FinalCell(p, cell, ops))]
    decreases ops
  {
    if ops == [] {
      assert [] + [op] == [op] && [op][1..] == [];
    } else {
      assert (ops + [op])[1..] == ops[1..] + [op];
      VerdictsSnoc(p, Fit(p, cell + Delta(ops[0])), ops[1..], op);
    }
  }

  lemma FitStep(x: int, op: Op)
    ensures Fit(DontCare, x % VALUES + Delta(op)) == (x + Delta(op)) % VALUES
  {
    var q, r := x / VALUES, x % VALUES;
    assert x + Delta(op) == q * VALUES + (r + Delta(op));
    if r + Delta(op) == VALUES {
      Remainder(x + Delta(op), q + 1, 0);
    } else if r + Delta(op) < 0 {
      Remainder(x + Delta(op), q - 1, VALUES - 1);
    } else {
      Remainder(x + Delta(op), q, r + Delta(op));
    }
  }

  lemma Remainder(x: int, q: int, r: int)
    requires x == q * VALUES + r && 0 <= r < VALUES
    ensures x % VALUES == r
  {
  }

  lemma SameRemainder(x: int, y: int)
    ensures x % VALUES == y % VALUES <==> (y - x) % VALUES == 0
  {
    var q := y / VALUES - x / VALUES;
    assert y - x == q * VALUES + (y % VALUES - x % VALUES);
    if y % VALUES < x % VALUES {
      Remainder(y - x, q - 1, VALUES + (y % VALUES - x % VALUES));
    } else {
      Remainder(y - x, q, y % VALUES - x % VALUES);
    }
  }

  /** The atomic cell is the first one plus the net change, modulo 2^32. */
  lemma {:induction false} AtomicIsNet(cell: int, ms: seq<Micro>)
    requires IsCell(DontCare, cell)
    ensures FinalCell(DontCare, cell, Stores(ms)) == (cell + Net(ms)) % VALUES
  {
    if ms == [] {
      Remainder(cell, 0, cell);
    } else {
      var front, last := ms[..|ms| - 1], ms[|ms| - 1];
      AtomicIsNet(cell, front);
      if last.Store? {
        FinalCellSnoc(DontCare, cell, Stores(front), last.op);
        FitStep(cell + Net(front), last.op);
      } else {
        assert Stores(ms) == Stores(front);
      }
    }
  }

  lemma {:induction false} NetSplit(ms: seq<Micro>, j: nat, k: nat)
    requires j <= k <= |ms|
    ensures Net(ms[..k]) == Net(ms[..j]) + Net(ms[j..k])
    decreases k
  {
    if j < k {
      assert ms[..k][..k - 1] == ms[..k - 1] && ms[j..k][..k - 1 - j] == ms[j..k - 1];
      NetSplit(ms, j, k - 1);
    }
  }

  /** Until the holder loads again, its register keeps what it loaded. */
  lemma {:induction false} RegisterKept(s: Plain, ms: seq<Micro>, j: nat, k: nat, who: nat)
    requires j < k <= |ms| && ms[j] == Load(who) && forall i :: j < i < k ==> ms[i] != Load(who)
    ensures var r := PlainRun(s, ms[..k]).registers; who in r && r[who] == PlainRun(s, ms[..j]).cell
    decreases k
  {
    assert ms[..k][..k - 1] == ms[..k - 1] && ms[..k][k - 1] == ms[k - 1];
    if j < k - 1 {
      RegisterKept(s, ms, j, k - 1, who);
    }
  }

  lemma NextStore(s: Plain, ms: seq<Micro>, k: nat)
    requires k < |ms| && ms[k].Store?
    ensures PlainRun(s, ms[..k + 1]).cell == Written(PlainRun(s, ms[..k]), ms[k].who, ms[k].op)
    ensures Net(ms[..k + 1]) == Net(ms[..k]) + Delta(ms[k].op)
  {
    assert ms[..k + 1][..k] == ms[..k] && ms[..k + 1][k] == ms[k];
  }

  /** If the cells agreed at the load and before the store, they agree after it exactly when the stores cancel out. */
  lemma StoreAgrees(s: Plain, ms: seq<Micro>, j: nat, k: nat)
    requires IsCell(DontCare, s.cell) && j < k < |ms| && IsLastLoad(ms, j, k)
    requires PlainRun(s, ms[..j]).cell == FinalCell(DontCare, s.cell, Stores(ms[..j]))
    ensures PlainRun(s, ms[..k + 1]).cell == FinalCell(DontCare, s.cell, Stores(ms[..k + 1]))
            <==> Net(ms[j..k]) % VALUES == 0
  {
    hide PlainRun, FinalCell, Stores, Net, Fit;
    var x, y, op := s.cell + Net(ms[..j]), s.cell + Net(ms[..k]), ms[k].op;
    NextStore(s, ms, k);
    RegisterKept(s, ms, j, k, ms[k].who);
    AtomicIsNet(s.cell, ms[..j]);
    AtomicIsNet(s.cell, ms[..k + 1]);
    FitStep(x, op);
    NetSplit(ms, j, k);
    SameRemainder(x + Delta(op), y + Delta(op));
  }

  lemma LoadAgrees(s: Plain, ms: seq<Micro>)
    requires ms != [] && ms[|ms| - 1].Load?
    ensures PlainRun(s, ms).cell == PlainRun(s, ms[..|ms| - 1]).cell && Stores(ms) == Stores(ms[..|ms| - 1])
  {
  }

  lemma StretchOfFront(ms: seq<Micro>, n: nat, j: nat, k: nat)
    requires j <= k <= n <= |ms|
    ensures ms[..n][j..k] == ms[j..k]
  {
    assert forall i :: 0 <= i < k - j ==> ms[..n][j..k][i] == ms[j + i] == ms[j..k][i];
  }

  lemma BalancedFront(ms: seq<Micro>, n: nat)
    requires n + 1 == |ms| && LoadedFirst(ms)
    ensures LoadedFirst(ms[..n])
    ensures ms[n].Load? ==> (Balanced(ms) <==> Balanced(ms[..n]))
    ensures ms[n].Store? ==> exists j :: 0 <= j < n && IsLastLoad(ms, j, n)
    ensures forall j :: 0 <= j < n && IsLastLoad(ms, j, n) ==>
              (Balanced(ms) <==> Balanced(ms[..n]) && Net(ms[j..n]) % VALUES == 0)
  {
    var front := ms[..n];
    assert forall j, k :: 0 <= j < k < n ==> (IsLastLoad(ms, j, k) <==> IsLastLoad(front, j, k));
    forall j, k | 0 <= j < k < n
      ensures ms[j..k] == front[j..k]
    {
      StretchOfFront(ms, n, j, k);
    }
    if ms[n].Store? {
      var j :| 0 <= j < n && IsLastLoad(ms, j, n);
      assert forall i :: 0 <= i < n && IsLastLoad(ms, i, n) ==> i == j;
    }
  }

  lemma EmptySchedule(s: Plain)
    ensures CountsAtomically(s, []) && Balanced([])
  {
  }

  /**
    * The plain variant counts like the atomic ones throughout a schedule if and only if, at every store, the stores
    * made since that holder's last load cancel out modulo 2^32.
    */
  lemma {:induction false} PlainCountsIffBalanced(s: Plain, ms: seq<Micro>)
    requires IsCell(DontCare, s.cell) && LoadedFirst(ms)
    ensures CountsAtomically(s, ms) <==> Balanced(ms)
  {
    hide PlainRun, FinalCell, Stores, Net, LoadedFirst, Balanced;
    if ms == [] {
      EmptySchedule(s);
    } else {
      var n := |ms| - 1;
      var front := ms[..n];
      BalancedFront(ms, n);
      PlainCountsIffBalanced(s, front);
      assert ms[..n + 1] == ms;
      assert forall k :: 0 <= k <= n ==> front[..k] == ms[..k];
      assert CountsAtomically(s, ms)
        <==> CountsAtomically(s, front) && PlainRun(s, ms).cell == FinalCell(DontCare, s.cell, Stores(ms));
      if CountsAtomically(s, front) {
        if ms[n].Load? {
          assert front[..n] == front;
          LoadAgrees(s, ms);
        } else {
          var j :| 0 <= j < n && IsLastLoad(ms, j, n);
          assert front[..j] == ms[..j];
          StoreAgrees(s, ms, j, n);
        }
      }
    }
  }

  lemma CellAtEnd(s: Plain, ms: seq<Micro>)
    requires IsCell(DontCare, s.cell) && LoadedFirst(ms) && Balanced(ms)
    ensures PlainRun(s, ms).cell == FinalCell(DontCare, s.cell, Stores(ms))
  {
    PlainCountsIffBalanced(s, ms);
    assert ms[..|ms|] == ms;
  }

  lemma LastWritten(s: Plain, ms: seq<Micro>)
    requires ms != [] && ms[|ms| - 1].Store?
    ensures var last := ms[|ms| - 1]; PlainRun(s, ms).cell == Written(PlainRun(s, ms[..|ms| - 1]), last.who, last.op)
  {
  }

  /** On a balanced schedule every DEC_REF gets the verdict it gets from the atomic variants. */
  lemma {:induction false} BalancedVerdicts(s: Plain, ms: seq<Micro>)
    requires IsCell(DontCare, s.cell) && LoadedFirst(ms) && Balanced(ms)
    ensures PlainVerdicts(s, ms) == Verdicts(DontCare, s.cell, Stores(ms))
    ensures PlainRun(s, ms).cell == FinalCell(DontCare, s.cell, Stores(ms))
  {
    hide PlainRun, CountsAtomically, Written, Balanced, LoadedFirst;
    CellAtEnd(s, ms);
    if ms != [] {
      var front, last := ms[..|ms| - 1], ms[|ms| - 1];
      BalancedFront(ms, |ms| - 1);
      BalancedVerdicts(s, front);
      if last.Store? {
        FinalCellSnoc(DontCare, s.cell, Stores(front), last.op);
        VerdictsSnoc(DontCare, s.cell, Stores(front), last.op);
        LastWritten(s, ms);
      } else {
        assert Stores(ms) == Stores(front) && PlainVerdicts(s, ms) == PlainVerdicts(s, front);
      }
    }
  }

  /** One holder's operations after another's, each load directly followed by its store. */
  function Sequential(who: seq<nat>, ops: seq<Op>): (ms: seq<Micro>)
    requires |who| == |ops|
    ensures |ms| == 2 * |ops|
  {
    if ops == [] then []
    else
      var n := |ops| - 1;
      Sequential(who[..n], ops[..n]) + [Load(who[n]), Store(who[n], ops[n])]
  }

  lemma {:induction false} SequentialAt(who: seq<nat>, ops: seq<Op>, i: nat)
    requires |who| == |ops| && i < |ops|
    ensures var ms := Sequential(who, ops); ms[2 * i] == Load(who[i]) && ms[2 * i + 1] == Store(who[i], ops[i])
  {
    if i < |ops| - 1 {
      SequentialAt(who[..|ops| - 1], ops[..|ops| - 1], i);
    }
  }

  lemma {:induction false} SequentialStores(who: seq<nat>, ops: seq<Op>)
    requires |who| == |ops|
    ensures Stores(Sequential(who, ops)) == ops
  {
    if ops != [] {
      var n := |ops| - 1;
      var front, ms := Sequential(who[..n], ops[..n]), Sequential(who, ops);
      SequentialStores(who[..n], ops[..n]);
      assert ms[..|ms| - 1] == front + [Load(who[n])] && (front + [Load(who[n])])[..|front|] == front;
    }
  }

  lemma NetOfLoad(who: nat)
    ensures Net([Load(who)]) == 0
  {
    assert [Load(who)][..0] == [];
  }

  lemma {:induction false} SequentialIsBalanced(who: seq<nat>, ops: seq<Op>)
    requires |who| == |ops|
    ensures LoadedFirst(Sequential(who, ops)) && Balanced(Sequential(who, ops))
  {
    hide Sequential, Net;
    var ms := Sequential(who, ops);
    forall k | 0 <= k < |ms| && ms[k].Store?
      ensures k > 0 && IsLastLoad(ms, k - 1, k) && Net(ms[k - 1..k]) == 0
    {
      SequentialAt(who, ops, k / 2);
      assert k == 2 * (k / 2) || k == 2 * (k / 2) + 1;
      assert ms[k - 1..k] == [Load(ms[k].who)];
      NetOfLoad(ms[k].who);
    }
    forall j, k | 0 <= j < k < |ms| && IsLastLoad(ms, j, k)
      ensures Net(ms[j..k]) % VALUES == 0
    {
      assert IsLastLoad(ms, k - 1, k);
      assert j == k - 1;
    }
  }

  /**
    * On sequential runs the plain variant refines every atomic one started on the same bits: the same bits in the
    * cell, and the same verdict for every DEC_REF.
    */
  lemma {:induction false} SequentialRefinesAtomic(s: Plain, who: seq<nat>, ops: seq<Op>, p: Platform, cell: int)
    requires IsCell(DontCare, s.cell) && |who| == |ops| && IsCell(p, cell) && Bits(cell) == Bits(s.cell)
    ensures PlainVerdicts(s, Sequential(who, ops)) == Verdicts(p, cell, ops)
    ensures Bits(PlainRun(s, Sequential(who, ops)).cell) == Bits(FinalCell(p, cell, ops))
  {
    SequentialIsBalanced(who, ops);
    SequentialStores(who, ops);
    BalancedVerdicts(s, Sequential(who, ops));
    PlatformsBisimilar(DontCare, p, s.cell, cell, ops);
  }

  /** Two holders releasing at the same time lose a decrement: nobody holds a reference and nobody saw zero. */
  lemma LostDecrement()
    ensures var ms := [Load(0), Load(1), Store(0, Dec(0)), Store(1, Dec(1))];
            var s := Plain(2, map[]);
            && ValidRun([1, 1], Stores(ms)) && Live(FinalHeld([1, 1], Stores(ms))) == 0
            && LoadedFirst(ms) && !Balanced(ms)
            && PlainRun(s, ms).cell == 1 && PlainVerdicts(s, ms) == [false, false]
  {
    hide *;
    BothStore();
    StaleRelease();
    NothingHeld();
  }

  lemma BothLoad()
    ensures var ms := [Load(0), Load(1)];
            var s := Plain(2, map[]);
            && PlainRun(s, ms) == Plain(2, map[0 := 2, 1 := 2]) && Stores(ms) == [] && PlainVerdicts(s, ms) == []
  {
    hide PlainRun, Stores, PlainVerdicts;
    var s := Plain(2, map[]);
    NoSteps(s);
    OneMore(s, [], Load(0));
    OneMore(s, [Load(0)], Load(1));
    assert [] + [Load(0)] == [Load(0)] && [Load(0)] + [Load(1)] == [Load(0), Load(1)];
  }

  lemma BothStore()
    ensures var ms := [Load(0), Load(1), Store(0, Dec(0)), Store(1, Dec(1))];
            var s := Plain(2, map[]);
            && PlainRun(s, ms).cell == 1 && Stores(ms) == [Dec(0), Dec(1)] && PlainVerdicts(s, ms) == [false, false]
  {
    hide PlainRun, Stores, PlainVerdicts;
    var s := Plain(2, map[]);
    var loads := [Load(0), Load(1)];
    BothLoad();
    OneMore(s, loads, Store(0, Dec(0)));
    OneMore(s, loads + [Store(0, Dec(0))], Store(1, Dec(1)));
    assert loads + [Store(0, Dec(0))] + [Store(1, Dec(1))] == [Load(0), Load(1), Store(0, Dec(0)), Store(1, Dec(1))];
  }

  lemma NoSteps(s: Plain)
    ensures PlainRun(s, []) == s && Stores([]) == [] && PlainVerdicts(s, []) == []
  {
  }

  lemma OneMore(s: Plain, front: seq<Micro>, m: Micro)
    ensures var ms, before := front + [m], PlainRun(s, front);
            && PlainRun(s, ms) == PlainStep(before, m)
            && Stores(ms) == Stores(front) + (if m.Store? then [m.op] else [])
            && PlainVerdicts(s, ms)
               == PlainVerdicts(s, front) + if m.Load? then [] else [m.op.Dec? && Written(before, m.who, m.op) == 0]
  {
    assert (front + [m])[..|front|] == front;
  }

  lemma StaleRelease()
    ensures var ms := [Load(0), Load(1), Store(0, Dec(0)), Store(1, Dec(1))]; LoadedFirst(ms) && !Balanced(ms)
  {
    var ms := [Load(0), Load(1), Store(0, Dec(0)), Store(1, Dec(1))];
    assert IsLastLoad(ms, 0, 2) && IsLastLoad(ms, 1, 3);
    var between := ms[1..3];
    assert between == [Load(1), Store(0, Dec(0))] && between[..1] == [Load(1)];
    NetOfLoad(1);
    assert Net(between) == -1;
  }

  lemma NothingHeld()
    ensures ValidRun([1, 1], [Dec(0), Dec(1)]) && Live(FinalHeld([1, 1], [Dec(0), Dec(1)])) == 0
  {
    assert After([1, 1], Dec(0)) == [0, 1] && After([0, 1], Dec(1)) == [0, 0];
    assert [Dec(0), Dec(1)][1..] == [Dec(1)] && [Dec(1)][1..] == [];
    assert FinalHeld([0, 1], [Dec(1)]) == FinalHeld([0, 0], []) == [0, 0];
    NobodyHolds(2);
    assert [0, 0] == seq(2, i => 0);
  }
}
