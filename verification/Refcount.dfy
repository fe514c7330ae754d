/**
  * iotHub_mbtcp/inc/azure_c_shared_utility/refcount.h: a 32-bit reference counter changed by
  * atomic INC_REF and DEC_REF steps, in the four forms the macros take.
  */
module Refcount {
  import opened Words

  const VALUES: int := UINT32_VALUES

  /** C11: atomic_fetch_add. Win32: Interlocked calls on a LONG. Gcc: __sync_add_and_fetch. DontCare: ++ and --. */
  datatype Platform = C11 | Win32 | Gcc | DontCare

  /** LONG is signed; the other count types are uint32_t. */
  function Least(p: Platform): int {
    if p.Win32? then -VALUES / 2 else 0
  }

  predicate IsCell(p: Platform, cell: int) {
    Least(p) <= cell < Least(p) + VALUES
  }

  /** The counter is 32 bits wide: a result one past either end wraps round to the other. */
  function Fit(p: Platform, n: int): int {
    if n >= Least(p) + VALUES then n - VALUES else if n < Least(p) then n + VALUES else n
  }

  /** The bit pattern of a cell, read as an unsigned number. */
  function Bits(cell: int): int {
    if cell < 0 then cell + VALUES else cell
  }

  /** DEC_RETURN_ZERO as the #if chain defines it. */
  function DecReturnZero(p: Platform): int {
    if p.C11? then 1 else 0
  }

  /** What the INC_REF and DEC_REF expressions evaluate to; the C11 functions give the value before the change. */
  function StepResult(p: Platform, cell: int, delta: int): int {
    if p.C11? then cell else Fit(p, cell + delta)
  }

  predicate ReportsZero(p: Platform, cell: int) {
    StepResult(p, cell, -1) == DecReturnZero(p)
  }

  /** The count types: LONG on Windows, uint32_t elsewhere; and what DEC_REF is compared with. */
  lemma CountTypes(p: Platform, cell: int)
    ensures IsCell(p, cell) <==> if p.Win32? then -2_147_483_648 <= cell <= 2_147_483_647
                                 else 0 <= cell <= 4_294_967_295
    ensures DecReturnZero(p) == if p.C11? then 1 else 0
  {
  }

  class Counted {
    const platform: Platform
    var count: int

    ghost predicate Valid()
      reads this
    {
      IsCell(platform, count)
    }

    constructor (platform: Platform)
      ensures Valid() && this.platform == platform && count == 1
    {
      this.platform := platform;
      count := 1;
    }

    method IncRef() returns (r: int)
      requires Valid()
      modifies this
      ensures Valid() && count == Fit(platform, old(count) + 1)
      ensures r == if platform.C11? then old(count) else count
      ensures Bits(count) == (Bits(old(count)) + 1) % VALUES
    {
      NextRemainder(Bits(count));
      var before := count;
      count := Fit(platform, count + 1);
      match platform {
        case C11 => r := before;
        case Win32 => r := count;
        case Gcc => r := count;
        case DontCare => r := count;
      }
    }

    /** The caller frees the object when the result equals DEC_RETURN_ZERO. */
    method DecRef() returns (r: int)
      requires Valid()
      modifies this
      ensures Valid() && count == Fit(platform, old(count) - 1)
      ensures r == if platform.C11? then old(count) else count
      ensures r == DecReturnZero(platform) <==> count == 0
      ensures Bits(old(count)) == (Bits(count) + 1) % VALUES
    {
      VerdictIsZeroCell(platform, count);
      var before := count;
      count := Fit(platform, count - 1);
      NextRemainder(Bits(count));
      match platform {
        case C11 => r := before;
        case Win32 => r := count;
        case Gcc => r := count;
        case DontCare => r := count;
      }
    }
  }

  /** The generated _Create function: null when malloc fails, otherwise one reference. */
  method Create(p: Platform, mallocSucceeds: bool) returns (r: Counted?)
    ensures mallocSucceeds <==> r != null
    ensures r != null ==> fresh(r) && r.Valid() && r.platform == p && r.count == 1
  {
    if mallocSucceeds {
      r := new Counted(p);
    } else {
      r := null;
    }
  }

  /** On every platform the test against DEC_RETURN_ZERO asks whether the cell has just become 0. */
  lemma VerdictIsZeroCell(p: Platform, cell: int)
    requires IsCell(p, cell)
    ensures ReportsZero(p, cell) <==> Fit(p, cell - 1) == 0
    ensures ReportsZero(p, cell) <==> Bits(cell) == 1
  {
  }

  // ----- Holders and interleaved runs -----

  /** Holder giver takes a reference for holder who, or who gives one of its own up. */
  datatype Op = Inc(giver: nat, who: nat) | Dec(who: nat)

  function Live(held: seq<nat>): nat {
    if held == [] then 0 else held[0] + Live(held[1..])
  }

  /** Only a holder that still has a reference may copy it or give it up. */
  predicate Enabled(held: seq<nat>, op: Op) {
    match op
    case Inc(giver, who) => giver < |held| && held[giver] > 0 && who < |held|
    case Dec(who) => who < |held| && held[who] > 0
  }

  function After(held: seq<nat>, op: Op): seq<nat>
    requires Enabled(held, op)
  {
    match op
    case Inc(_, who) => held[who := held[who] + 1]
    case Dec(who) => held[who := held[who] - 1]
  }

  function Delta(op: Op): int {
    if op.Inc? then 1 else -1
  }

  predicate ValidRun(held: seq<nat>, ops: seq<Op>)
    decreases ops
  {
    ops == [] || (Enabled(held, ops[0]) && ValidRun(After(held, ops[0]), ops[1..]))
  }

  function FinalHeld(held: seq<nat>, ops: seq<Op>): seq<nat>
    requires ValidRun(held, ops)
    decreases ops
  {
    if ops == [] then held else FinalHeld(After(held, ops[0]), ops[1..])
  }

  function FinalCell(p: Platform, cell: int, ops: seq<Op>): int
    decreases ops
  {
    if ops == [] then cell else FinalCell(p, Fit(p, cell + Delta(ops[0])), ops[1..])
  }

  /** One verdict a step: true for a DEC_REF that compares equal to DEC_RETURN_ZERO. */
  function Verdicts(p: Platform, cell: int, ops: seq<Op>): seq<bool>
    decreases ops
  {
    if ops == [] then []
    else [ops[0].Dec? && ReportsZero(p, cell)] + Verdicts(p, Fit(p, cell + Delta(ops[0])), ops[1..])
  }

  function Count(verdicts: seq<bool>): nat {
    if verdicts == [] then 0 else (if verdicts[0] then 1 else 0) + Count(verdicts[1..])
  }

  /** The number of live references never exceeds 2^32 along the run. */
  predicate WithinBound(held: seq<nat>, ops: seq<Op>)
    requires ValidRun(held, ops)
    decreases ops
  {
    Live(held) <= VALUES && (ops == [] || WithinBound(After(held, ops[0]), ops[1..]))
  }

  predicate Tracks(cell: int, held: seq<nat>) {
    Bits(cell) == Live(held) % VALUES
  }

  lemma {:induction false} LiveUpdate(held: seq<nat>, i: nat, v: nat)
    requires i < |held|
    ensures Live(held[i := v]) == Live(held) - held[i] + v
  {
    if i > 0 {
      assert held[i := v][1..] == held[1..][i - 1 := v];
      LiveUpdate(held[1..], i - 1, v);
    } else {
      assert held[i := v][1..] == held[1..];
    }
  }

  lemma {:induction false} LiveAtLeast(held: seq<nat>, i: nat)
    requires i < |held|
    ensures Live(held) >= held[i]
  {
    if i > 0 {
      LiveAtLeast(held[1..], i - 1);
    }
  }

  lemma LiveAfter(held: seq<nat>, op: Op)
    requires Enabled(held, op)
    ensures Live(held) > 0 && Live(After(held, op)) == Live(held) + Delta(op)
  {
    match op {
      case Inc(giver, who) =>
        LiveAtLeast(held, giver);
        LiveUpdate(held, who, held[who] + 1);
      case Dec(who) =>
        LiveAtLeast(held, who);
        LiveUpdate(held, who, held[who] - 1);
    }
  }

  /** One step keeps the cell congruent to the live references, and its verdict is about them alone. */
  lemma StepTracks(p: Platform, cell: int, held: seq<nat>, op: Op)
    requires IsCell(p, cell) && Tracks(cell, held) && Enabled(held, op)
    ensures var cell' := Fit(p, cell + Delta(op)); IsCell(p, cell') && Tracks(cell', After(held, op))
    ensures op.Dec? ==> (ReportsZero(p, cell) <==> Live(After(held, op)) % VALUES == 0)
  {
    LiveAfter(held, op);
    NextRemainder(Live(held));
    NextRemainder(Live(held) - 1);
    VerdictIsZeroCell(p, cell);
  }

  lemma NextRemainder(n: nat)
    ensures (n + 1) % VALUES == if n % VALUES == VALUES - 1 then 0 else n % VALUES + 1
  {
  }

  /** What the operations of a run give holder h and take from it. */
  function Balance(ops: seq<Op>, h: nat): int {
    if ops == [] then 0
    else
      Balance(ops[1..], h) + match ops[0]
                             case Inc(_, who) => if who == h then 1 else 0
                             case Dec(who) => if who == h then -1 else 0
  }

  /** Each holder ends with what it had, the references taken for it, and less those it gave up. */
  lemma {:induction false} HoldersBalance(held: seq<nat>, ops: seq<Op>, h: nat)
    requires ValidRun(held, ops) && h < |held|
    ensures |FinalHeld(held, ops)| == |held| && FinalHeld(held, ops)[h] == held[h] + Balance(ops, h)
    decreases ops
  {
    if ops != [] {
      HoldersBalance(After(held, ops[0]), ops[1..], h);
    }
  }

  /** Along every run the counter equals the live references modulo 2^32. */
  lemma {:induction false} CounterTracksLive(p: Platform, cell: int, held: seq<nat>, ops: seq<Op>)
    requires IsCell(p, cell) && Tracks(cell, held) && ValidRun(held, ops)
    ensures IsCell(p, FinalCell(p, cell, ops)) && Tracks(FinalCell(p, cell, ops), FinalHeld(held, ops))
    decreases ops
  {
    if ops != [] {
      StepTracks(p, cell, held, ops[0]);
      CounterTracksLive(p, Fit(p, cell + Delta(ops[0])), After(held, ops[0]), ops[1..]);
    }
  }

  lemma BisimilarStep(p: Platform, q: Platform, cellP: int, cellQ: int, op: Op)
    requires IsCell(p, cellP) && IsCell(q, cellQ) && Bits(cellP) == Bits(cellQ)
    ensures var cellP', cellQ' := Fit(p, cellP + Delta(op)), Fit(q, cellQ + Delta(op));
            IsCell(p, cellP') && IsCell(q, cellQ') && Bits(cellP') == Bits(cellQ')
    ensures ReportsZero(p, cellP) <==> ReportsZero(q, cellQ)
  {
    VerdictIsZeroCell(p, cellP);
    VerdictIsZeroCell(q, cellQ);
  }

  /** The four forms of the macros are bisimilar: equal bits give equal bits and verdicts at every step. */
  lemma {:induction false} PlatformsBisimilar(p: Platform, q: Platform, cellP: int, cellQ: int, ops: seq<Op>)
    requires IsCell(p, cellP) && IsCell(q, cellQ) && Bits(cellP) == Bits(cellQ)
    ensures Verdicts(p, cellP, ops) == Verdicts(q, cellQ, ops)
    ensures Bits(FinalCell(p, cellP, ops)) == Bits(FinalCell(q, cellQ, ops))
    decreases ops
  {
    if ops != [] {
      BisimilarStep(p, q, cellP, cellQ, ops[0]);
      PlatformsBisimilar(p, q, Fit(p, cellP + Delta(ops[0])), Fit(q, cellQ + Delta(ops[0])), ops[1..]);
    }
  }

  /** A verdict of zero is always followed by a multiple of 2^32 references: none, or at least 2^32. */
  lemma {:induction false} VerdictMeaning(p: Platform, cell: int, held: seq<nat>, ops: seq<Op>, k: nat)
    requires IsCell(p, cell) && Tracks(cell, held) && ValidRun(held, ops) && k < |ops|
    ensures |Verdicts(p, cell, ops)| == |ops|
    ensures ValidRun(held, ops[..k + 1])
    ensures Verdicts(p, cell, ops)[k] <==> ops[k].Dec? && Live(FinalHeld(held, ops[..k + 1])) % VALUES == 0
    decreases ops
  {
    hide Live, Fit, ReportsZero, Tracks, IsCell;
    StepTracks(p, cell, held, ops[0]);
    var cell', held' := Fit(p, cell + Delta(ops[0])), After(held, ops[0]);
    FirstVerdict(p, cell, ops);
    assert ops[..k + 1][0] == ops[0] && ops[..k + 1][1..] == ops[1..][..k];
    if k > 0 {
      VerdictMeaning(p, cell', held', ops[1..], k - 1);
    } else {
      VerdictsLength(p, cell', ops[1..]);
      assert FinalHeld(held, ops[..1]) == FinalHeld(held', []) == held';
    }
  }

  lemma FirstVerdict(p: Platform, cell: int, ops: seq<Op>)
    requires ops != []
    ensures Verdicts(p, cell, ops)
            == [ops[0].Dec? && ReportsZero(p, cell)] + Verdicts(p, Fit(p, cell + Delta(ops[0])), ops[1..])
  {
  }

  lemma {:induction false} VerdictsLength(p: Platform, cell: int, ops: seq<Op>)
    ensures |Verdicts(p, cell, ops)| == |ops|
    decreases ops
  {
    if ops != [] {
      VerdictsLength(p, Fit(p, cell + Delta(ops[0])), ops[1..]);
    }
  }

  /** The first step of a run, seen through the live references alone. */
  lemma FirstStep(p: Platform, cell: int, held: seq<nat>, ops: seq<Op>)
    requires IsCell(p, cell) && Tracks(cell, held) && ValidRun(held, ops) && ops != []
    ensures var cell', held' := Fit(p, cell + Delta(ops[0])), After(held, ops[0]);
            && IsCell(p, cell') && Tracks(cell', held') && ValidRun(held', ops[1..])
            && Live(held) > 0 && Live(held') == Live(held) + Delta(ops[0])
            && Count(Verdicts(p, cell, ops))
               == (if ops[0].Dec? && Live(held') % VALUES == 0 then 1 else 0) + Count(Verdicts(p, cell', ops[1..]))
  {
    StepTracks(p, cell, held, ops[0]);
    LiveAfter(held, ops[0]);
    assert Verdicts(p, cell, ops)[1..] == Verdicts(p, Fit(p, cell + Delta(ops[0])), ops[1..]);
  }

  /** Up to 2^32 references the protocol is right: one zero verdict if everything was released, none otherwise. */
  lemma {:induction false} WithinBoundOneZero(p: Platform, cell: int, held: seq<nat>, ops: seq<Op>)
    requires IsCell(p, cell) && Tracks(cell, held) && ValidRun(held, ops) && Live(held) > 0
    requires WithinBound(held, ops)
    ensures Count(Verdicts(p, cell, ops)) == if Live(FinalHeld(held, ops)) == 0 then 1 else 0
    decreases ops
  {
    if ops != [] {
      FirstStep(p, cell, held, ops);
      var cell', held' := Fit(p, cell + Delta(ops[0])), After(held, ops[0]);
      if Live(held') == 0 {
        NothingAfterRelease(held', ops[1..]);
      } else {
        WithinBoundOneZero(p, cell', held', ops[1..]);
        assert Live(held') <= VALUES;
      }
    }
  }

  lemma NothingAfterRelease(held: seq<nat>, ops: seq<Op>)
    requires Live(held) == 0 && ValidRun(held, ops)
    ensures ops == []
  {
    if ops != [] {
      LiveAfter(held, ops[0]);
    }
  }

  /** A run that releases everything reports zero at least once, and at least twice if it starts above the bound. */
  lemma {:induction false} ReleasedRunZeros(p: Platform, cell: int, held: seq<nat>, ops: seq<Op>)
    requires IsCell(p, cell) && Tracks(cell, held) && ValidRun(held, ops)
    requires Live(held) > 0 && Live(FinalHeld(held, ops)) == 0
    ensures Count(Verdicts(p, cell, ops)) >= if Live(held) > VALUES then 2 else 1
    decreases ops
  {
    FirstStep(p, cell, held, ops);
    var cell', held' := Fit(p, cell + Delta(ops[0])), After(held, ops[0]);
    if Live(held') > 0 {
      ReleasedRunZeros(p, cell', held', ops[1..]);
    }
  }

  lemma {:induction false} BeyondBoundManyZeros(p: Platform, cell: int, held: seq<nat>, ops: seq<Op>)
    requires IsCell(p, cell) && Tracks(cell, held) && ValidRun(held, ops)
    requires Live(held) > 0 && Live(FinalHeld(held, ops)) == 0 && !WithinBound(held, ops)
    ensures Count(Verdicts(p, cell, ops)) >= 2
    decreases ops
  {
    if Live(held) > VALUES {
      ReleasedRunZeros(p, cell, held, ops);
    } else {
      FirstStep(p, cell, held, ops);
      var cell', held' := Fit(p, cell + Delta(ops[0])), After(held, ops[0]);
      if Live(held') == 0 {
        NothingAfterRelease(held', ops[1..]);
        assert false;
      } else {
        BeyondBoundManyZeros(p, cell', held', ops[1..]);
      }
    }
  }

  /** The creator's view: one reference in the hands of one of n holders. */
  function Created(n: nat, creator: nat): seq<nat>
    requires creator < n
  {
    seq(n, i => 0)[creator := 1]
  }

  lemma {:induction false} NobodyHolds(n: nat)
    ensures Live(seq(n, i => 0)) == 0
  {
    if n > 0 {
      var zeros := seq(n, i => 0);
      assert zeros[1..] == seq(n - 1, i => 0);
      NobodyHolds(n - 1);
    }
  }

  lemma CreatedTracks(p: Platform, n: nat, creator: nat)
    requires creator < n
    ensures Live(Created(n, creator)) == 1 && IsCell(p, 1) && Tracks(1, Created(n, creator))
  {
    NobodyHolds(n);
    LiveUpdate(seq(n, i => 0), creator, 1);
  }

  /**
    * The bound is exact. For any holders, any interleaving and any platform, a run from _Create that ends
    * with every reference released frees the object exactly once if and only if it never had more than
    * 2^32 live references.
    */
  lemma FreedOnceIffWithinBound(p: Platform, n: nat, creator: nat, ops: seq<Op>)
    requires creator < n && ValidRun(Created(n, creator), ops)
    requires Live(FinalHeld(Created(n, creator), ops)) == 0
    ensures Count(Verdicts(p, 1, ops)) == 1 <==> WithinBound(Created(n, creator), ops)
  {
    CreatedTracks(p, n, creator);
    if WithinBound(Created(n, creator), ops) {
      WithinBoundOneZero(p, 1, Created(n, creator), ops);
    } else {
      BeyondBoundManyZeros(p, 1, Created(n, creator), ops);
    }
  }

  /** Within the bound, at most one DEC_REF says zero, and a run with references left has none that does. */
  lemma AtMostOneZero(p: Platform, n: nat, creator: nat, ops: seq<Op>)
    requires creator < n && ValidRun(Created(n, creator), ops) && WithinBound(Created(n, creator), ops)
    ensures Count(Verdicts(p, 1, ops)) <= 1
    ensures Count(Verdicts(p, 1, ops)) == 1 <==> Live(FinalHeld(Created(n, creator), ops)) == 0
  {
    CreatedTracks(p, n, creator);
    WithinBoundOneZero(p, 1, Created(n, creator), ops);
  }

  /**
    * Past the bound the very next DEC_REF is wrong: with 2^32 + 1 references taken, giving one up reports
    * zero while 2^32 remain (the header's comment speaks of 0xFFFFFFFF).
    */
  lemma FalseZeroPastBound(p: Platform)
    ensures var ops := seq(VALUES, i => Inc(0, 0)) + [Dec(0)];
            ValidRun([1], ops)
            && Verdicts(p, 1, ops)[|Verdicts(p, 1, ops)| - 1]
            && FinalHeld([1], ops) == [VALUES]
  {
    var taken := seq(VALUES, i => Inc(0, 0));
    var ops := taken + [Dec(0)];
    TakeThenRelease(1, VALUES);
    StepTracks(p, 1, [1], ops[0]);
    VerdictMeaning(p, 1, [1], ops, VALUES);
    assert ops[..VALUES + 1] == ops;
  }

  lemma {:induction false} TakeThenRelease(have: nat, n: nat)
    requires have > 0
    ensures var ops := seq(n, i => Inc(0, 0)) + [Dec(0)];
            ValidRun([have], ops) && FinalHeld([have], ops) == [have + n - 1]
    decreases n
  {
    var ops := seq(n, i => Inc(0, 0)) + [Dec(0)];
    if n == 0 {
      assert After([have], ops[0]) == [have - 1];
    } else {
      assert ops[1..] == seq(n - 1, i => Inc(0, 0)) + [Dec(0)];
      assert After([have], ops[0]) == [have + 1];
      TakeThenRelease(have + 1, n - 1);
    }
  }
}
