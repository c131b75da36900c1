/**
 The 64-bit word of the stop state: bit 0 is "stop requested", bit 1 is "locked", bits 2 to 32 count
 tokens and bits 33 to 63 count sources. All arithmetic is on the raw word, modulo 2^64.
 */
module StopWord {
  import opened Prelude

  const STOP_REQUESTED: int := 1
  const LOCKED: int := 2
  const TOKEN: int := 4
  const SOURCE: int := 0x2_0000_0000
  const COUNT_LIMIT: int := 0x8000_0000

  // ---- the raw word ----

  function Wrap64(x: int): uint64 {
    x % 0x1_0000_0000_0000_0000
  }

  predicate IsStopRequested(w: uint64) {
    w % 2 == 1
  }

  predicate IsLocked(w: uint64) {
    w / 2 % 2 == 1
  }

  predicate IsStopRequestable(w: uint64) {
    IsStopRequested(w) || w >= SOURCE
  }

  function OrLocked(w: uint64): uint64 {
    if IsLocked(w) then w else Wrap64(w + LOCKED)
  }

  function OrStopRequested(w: uint64): uint64 {
    if IsStopRequested(w) then w else Wrap64(w + STOP_REQUESTED)
  }

  // The constants subtracted at unlock. The first is negative before it wraps.
  function UnlockAndTokenConstant(): uint64 {
    Wrap64(LOCKED - TOKEN)
  }

  function LockAndTokenConstant(): uint64 {
    Wrap64(LOCKED + TOKEN)
  }

  datatype Op =
    | Lock               // taking the lock
    | LockAndStop        // taking the lock and requesting the stop in one exchange
    | Unlock
    | UnlockAddToken
    | UnlockDropToken
    | AddToken
    | DropToken
    | AddSource
    | DropSource

  function ApplyRaw(w: uint64, op: Op): uint64 {
    match op
    case Lock => OrLocked(w)
    case LockAndStop => OrStopRequested(OrLocked(w))
    case Unlock => Wrap64(w - LOCKED)
    case UnlockAddToken => Wrap64(w - UnlockAndTokenConstant())
    case UnlockDropToken => Wrap64(w - LockAndTokenConstant())
    case AddToken => Wrap64(w + TOKEN)
    case DropToken => Wrap64(w - TOKEN)
    case AddSource => Wrap64(w + SOURCE)
    case DropSource => Wrap64(w - SOURCE)
  }

  function RunRaw(ops: seq<Op>): uint64 {
    if ops == [] then SOURCE else ApplyRaw(RunRaw(ops[..|ops| - 1]), ops[|ops| - 1])
  }

  // ---- what the word stands for ----

  datatype Word = Word(stop: bool, locked: bool, tokens: int, sources: int)

  function Encode(x: Word): int {
    (if x.stop then 1 else 0) + (if x.locked then 2 else 0) + 4 * x.tokens + 0x2_0000_0000 * x.sources
  }

  function Decode(w: uint64): Word {
    Word(w % 2 == 1, w / 2 % 2 == 1, w / 4 % 0x8000_0000, w / 0x2_0000_0000)
  }

  predicate InRange(x: Word) {
    0 <= x.tokens < COUNT_LIMIT && 0 <= x.sources < COUNT_LIMIT
  }

  function Apply(x: Word, op: Op): Word {
    match op
    case Lock => x.(locked := true)
    case LockAndStop => x.(locked := true, stop := true)
    case Unlock => x.(locked := false)
    case UnlockAddToken => x.(locked := false, tokens := x.tokens + 1)
    case UnlockDropToken => x.(locked := false, tokens := x.tokens - 1)
    case AddToken => x.(tokens := x.tokens + 1)
    case DropToken => x.(tokens := x.tokens - 1)
    case AddSource => x.(sources := x.sources + 1)
    case DropSource => x.(sources := x.sources - 1)
  }

  // The lock is taken when free and given back by its holder.
  predicate Allowed(x: Word, op: Op) {
    match op
    case Lock => !x.locked
    case LockAndStop => !x.locked && !x.stop
    case Unlock => x.locked
    case UnlockAddToken => x.locked
    case UnlockDropToken => x.locked
    case _ => true
  }

  function Run(ops: seq<Op>): Word {
    if ops == [] then Word(false, false, 0, 1) else Apply(Run(ops[..|ops| - 1]), ops[|ops| - 1])
  }

  // Every operation of the run was allowed, and both counts stayed within their 31 bits.
  predicate WithinLimits(ops: seq<Op>) {
    ops == [] || (
      var before := ops[..|ops| - 1];
      WithinLimits(before) && Allowed(Run(before), ops[|ops| - 1]) && InRange(Run(ops)))
  }

  lemma DecodeEncode(x: Word)
    requires InRange(x)
    ensures 0 <= Encode(x) < TWO_TO_64 && Decode(Encode(x)) == x
  {
    var w := Encode(x);
    assert w / 4 == x.tokens + 0x8000_0000 * x.sources;
    assert w / 2 == (if x.locked then 1 else 0) + 2 * (w / 4);
  }

  lemma WrapInRange(y: int)
    requires 0 <= y < TWO_TO_64
    ensures Wrap64(y) == y && Wrap64(y - TWO_TO_64) == y
  {
  }

  lemma RawFollowsFlags(x: Word, op: Op)
    requires InRange(x) && Allowed(x, op) && (op.Lock? || op.LockAndStop? || op.Unlock?)
    requires 0 <= Encode(x) < TWO_TO_64
    ensures ApplyRaw(Encode(x), op) == Encode(Apply(x, op))
  {
    DecodeEncode(x);
    DecodeEncode(x.(locked := true));
    DecodeEncode(Apply(x, op));
    WrapInRange(Encode(x.(locked := true)));
    WrapInRange(Encode(Apply(x, op)));
  }

  // The wrapping arithmetic of the word is the exact arithmetic of its encoding.
  lemma RawFollowsWord(x: Word, op: Op)
    requires InRange(x) && Allowed(x, op) && InRange(Apply(x, op))
    ensures 0 <= Encode(x) < TWO_TO_64
    ensures ApplyRaw(Encode(x), op) == Encode(Apply(x, op))
  {
    DecodeEncode(x);
    if op.Lock? || op.LockAndStop? || op.Unlock? {
      RawFollowsFlags(x, op);
    } else {
      DecodeEncode(Apply(x, op));
      WrapInRange(Encode(Apply(x, op)));
      assert UnlockAndTokenConstant() == TWO_TO_64 - 2;
    }
  }

  lemma LimitsGiveRange(ops: seq<Op>)
    requires WithinLimits(ops)
    ensures InRange(Run(ops))
  {
  }

  /**
   Over every run within the limits, the raw word packs the two flags and the two counts, side by side and
   undisturbed; reading it gives back exactly what the abstract operations say.
   */
  lemma {:induction false} PackedWord(ops: seq<Op>)
    requires WithinLimits(ops)
    ensures RunRaw(ops) == Encode(Run(ops)) && Decode(RunRaw(ops)) == Run(ops)
    ensures IsStopRequested(RunRaw(ops)) == Run(ops).stop && IsLocked(RunRaw(ops)) == Run(ops).locked
    ensures IsStopRequestable(RunRaw(ops)) == (Run(ops).stop || Run(ops).sources > 0)
  {
    if ops == [] {
      DecodeEncode(Run(ops));
    } else {
      PackedWord(ops[..|ops| - 1]);
      LimitsGiveRange(ops[..|ops| - 1]);
      RawFollowsWord(Run(ops[..|ops| - 1]), ops[|ops| - 1]);
      DecodeEncode(Run(ops));
    }
  }

  /**
   The limit is exact: without stop and sources, "requestable" is answered rightly if and only if the tokens
   fit their 31 bits.
   */
  lemma RequestableRightIff(tokens: nat, locked: bool)
    requires Encode(Word(false, locked, tokens, 0)) < TWO_TO_64
    ensures !IsStopRequestable(Encode(Word(false, locked, tokens, 0))) <==> tokens < COUNT_LIMIT
  {
  }

  // How many operations of the run are among `kinds`.
  function Tally(ops: seq<Op>, kinds: set<Op>): nat {
    if ops == [] then 0 else Tally(ops[..|ops| - 1], kinds) + if ops[|ops| - 1] in kinds then 1 else 0
  }

  /**
   What the word counts: tokens and sources added less those dropped in the run, beside the first source; that
   a stop was requested; and whether the lock was taken once more than it was given back.
   */
  lemma {:induction false} CountsOfRun(ops: seq<Op>)
    ensures var x := Run(ops);
            && x.tokens == Tally(ops, {AddToken, UnlockAddToken}) - Tally(ops, {DropToken, UnlockDropToken})
            && x.sources == 1 + Tally(ops, {AddSource}) - Tally(ops, {DropSource})
            && (x.stop <==> Tally(ops, {LockAndStop}) > 0)
    ensures WithinLimits(ops) ==>
              Tally(ops, {Lock, LockAndStop}) - Tally(ops, {Unlock, UnlockAddToken, UnlockDropToken})
                == if Run(ops).locked then 1 else 0
  {
    if ops != [] {
      CountsOfRun(ops[..|ops| - 1]);
    }
  }
}
