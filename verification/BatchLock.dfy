/**
 The try-and-back-off algorithm that locks a whole batch. The other owners are an environment that
 decides every lock attempt freely; `holds` counts, lock by lock, how often this owner holds it.
 Nothing else in the program changes `holds`, and a lock is only ever unlocked while it is held.
 */
module BatchLock {
  type Lock = nat

  // What the environment makes of an attempt. `Refused` is a failed `try_lock`; for a blocking lock
  // (or a pause) it means that the call has not come back yet.
  datatype Answer = Granted | Refused | Threw

  // How far a call got: a value, an exception, or still under way when the observed run stops.
  datatype Outcome<T> = Returned(value: T) | Thrown | Running

  // What is asked of the environment: a blocking lock, a try, or the pause after a failed attempt.
  datatype Asked = Locking(i: nat) | Trying(i: nat) | Pausing

  // The position that an attempt which blocks in `hardLock` asks for in its turn `n`.
  function Order(hardLock: nat, n: nat): nat {
    if n == 0 then hardLock else if n <= hardLock then n - 1 else n
  }

  // A call that did not return ends its caller the same way.
  function Propagate<T, U>(r: Outcome<T>): Outcome<U>
    requires !r.Returned?
  {
    if r.Thrown? then Thrown else Running
  }

  // The locks at the positions from `i` up to `j`.
  function Bag(s: seq<Lock>, i: nat, j: nat): multiset<Lock>
    requires i <= j <= |s|
  {
    if i == j then multiset{} else Bag(s, i, j - 1) + multiset{s[j - 1]}
  }

  lemma {:induction false} BagSplit(s: seq<Lock>, i: nat, j: nat, k: nat)
    requires i <= j <= k <= |s|
    ensures Bag(s, i, k) == Bag(s, i, j) + Bag(s, j, k)
  {
    if j < k {
      BagSplit(s, i, j, k - 1);
    }
  }

  lemma {:induction false} BagIsMultiset(s: seq<Lock>, j: nat)
    requires j <= |s|
    ensures Bag(s, 0, j) == multiset(s[..j])
  {
    if j > 0 {
      BagIsMultiset(s, j - 1);
      assert s[..j] == s[..j - 1] + [s[j - 1]];
    }
  }

  lemma WholeBag(s: seq<Lock>)
    ensures Bag(s, 0, |s|) == multiset(s)
  {
    BagIsMultiset(s, |s|);
    assert s[..|s|] == s;
  }

  // `after` holds what `before` holds and the locks of `bag` once more each.
  ghost predicate Raised(before: multiset<Lock>, after: multiset<Lock>, bag: multiset<Lock>) {
    forall l: Lock :: after[l] == before[l] + bag[l]
  }

  lemma RaisedThenLowered(start: multiset<Lock>, middle: multiset<Lock>, end: multiset<Lock>, bag: multiset<Lock>)
    requires Raised(start, middle, bag) && Raised(end, middle, bag)
    ensures end == start
  {
  }

  lemma RaisedTwice(start: multiset<Lock>, middle: multiset<Lock>, end: multiset<Lock>,
                    a: multiset<Lock>, b: multiset<Lock>, whole: multiset<Lock>)
    requires Raised(start, middle, a) && Raised(middle, end, b) && Raised(a, whole, b)
    ensures Raised(start, end, whole)
  {
  }

  lemma BagExtends(s: seq<Lock>, i: nat, j: nat, k: nat)
    requires i <= j <= k <= |s|
    ensures Raised(Bag(s, i, j), Bag(s, i, k), Bag(s, j, k))
  {
  }

  // The lock at `i` and then those before it.
  lemma RaisedThrough(s: seq<Lock>, i: nat, start: multiset<Lock>, middle: multiset<Lock>, end: multiset<Lock>)
    requires i < |s| && Raised(start, middle, multiset{s[i]}) && Raised(middle, end, Bag(s, 0, i))
    ensures Raised(start, end, Bag(s, 0, i + 1))
  {
  }

  // Then those behind it.
  lemma RaisedByAll(s: seq<Lock>, i: nat, start: multiset<Lock>,
                    first: multiset<Lock>, second: multiset<Lock>, end: multiset<Lock>)
    requires i < |s| && Raised(start, first, multiset{s[i]}) && Raised(first, second, Bag(s, 0, i))
    requires Raised(second, end, Bag(s, i + 1, |s|))
    ensures Raised(start, end, multiset(s))
  {
    RaisedThrough(s, i, start, first, second);
    BagExtends(s, 0, i + 1, |s|);
    WholeBag(s);
    RaisedTwice(start, second, end, Bag(s, 0, i + 1), Bag(s, i + 1, |s|), multiset(s));
  }

  lemma BagIsHeld(s: seq<Lock>, i: nat, j: nat, before: multiset<Lock>, after: multiset<Lock>)
    requires i <= j <= |s| && Raised(before, after, Bag(s, i, j))
    ensures Bag(s, i, j) <= after
  {
  }

  // One more lock of a stretch goes back: it was held, and the account moves on by one position.
  lemma NextIsHeld(s: seq<Lock>, first: nat, i: nat, last: nat, start: multiset<Lock>, middle: multiset<Lock>)
    requires first <= i < last <= |s|
    requires Bag(s, first, last) <= start && Raised(middle, start, Bag(s, first, i))
    ensures s[i] in middle
  {
  }

  lemma RaisedByNext(s: seq<Lock>, first: nat, i: nat,
                     start: multiset<Lock>, middle: multiset<Lock>, end: multiset<Lock>)
    requires first <= i < |s|
    requires Raised(start, middle, Bag(s, first, i)) && Raised(middle, end, multiset{s[i]})
    ensures Raised(start, end, Bag(s, first, i + 1))
  {
  }

  lemma LoweredByNext(s: seq<Lock>, first: nat, i: nat,
                      start: multiset<Lock>, middle: multiset<Lock>, end: multiset<Lock>)
    requires first <= i < |s|
    requires Raised(middle, start, Bag(s, first, i)) && Raised(end, middle, multiset{s[i]})
    ensures Raised(end, start, Bag(s, first, i + 1))
  {
  }

  // `after` holds what `before` holds, less the locks of `bag` as far as they were held.
  ghost predicate Dropped(before: multiset<Lock>, after: multiset<Lock>, bag: multiset<Lock>) {
    forall l: Lock :: after[l] == if before[l] > bag[l] then before[l] - bag[l] else 0
  }

  lemma DropUndoesRaise(start: multiset<Lock>, middle: multiset<Lock>, end: multiset<Lock>, bag: multiset<Lock>)
    requires Raised(start, middle, bag) && Dropped(middle, end, bag)
    ensures end == start
  {
    assert forall l: Lock :: end[l] == start[l];
  }

  lemma DropKeepsIff(before: multiset<Lock>, after: multiset<Lock>, s: seq<Lock>)
    requires Dropped(before, after, multiset(s))
    ensures after == before <==> forall i :: 0 <= i < |s| ==> before[s[i]] == 0
  {
  }

  class Assembly {
    const locks: seq<Lock>
    const environment: nat -> Answer
    var holds: multiset<Lock>
    var log: seq<Asked>  // what was asked so far: the answer to log[n] is environment(n)

    constructor (locks: seq<Lock>, environment: nat -> Answer)
      ensures log == [] && holds == multiset{}
      ensures this.locks == locks && this.environment == environment
    {
      this.locks, this.environment := locks, environment;
      holds, log := multiset{}, [];
    }

    // ---- the answers given between two points in time ----

    ghost predicate AllGranted(from: nat, end: nat) {
      forall n :: from <= n < end ==> environment(n) == Granted
    }

    ghost predicate SomeThrew(from: nat, end: nat) {
      exists n :: from <= n < end && environment(n) == Threw
    }

    // When the first of `n` answers that is not a grant comes, if any.
    ghost function FirstSetback(from: nat, n: nat): (f: nat)
      ensures from <= f <= from + n && AllGranted(from, f)
      ensures f < from + n ==> environment(f) != Granted
      decreases n
    {
      if n == 0 || environment(from) != Granted then from else FirstSetback(from + 1, n - 1)
    }

    // How a call that asks for nothing else ends on an answer.
    static function Ended<T>(answer: Answer, value: T): Outcome<T> {
      match answer case Granted => Returned(value) case Refused => Running case Threw => Thrown
    }

    // ---- what was asked since the time `from`, and what the answers decide ----

    /**
     Tries of the positions from `first` up to `last`: in order, as long as they are granted. The first that is
     not decides: a refused one is the failing index, one that threw is an exception.
     */
    ghost predicate RangeTried(log: seq<Asked>, first: nat, last: nat, from: nat, r: Outcome<int>)
      requires first <= last
    {
      && from <= |log| <= from + (last - first)
      && (forall n :: from <= n < |log| ==> log[n] == Trying(first + (n - from)))
      && if r == Returned(-1) then |log| == from + (last - first) && AllGranted(from, |log|)
         else
           && from < |log| && AllGranted(from, |log| - 1)
           && ((r == Returned(first + (|log| - 1 - from)) && environment(|log| - 1) == Refused)
               || (r == Thrown && environment(|log| - 1) == Threw))
    }

    lemma NextTried(log: seq<Asked>, first: nat, next: nat, last: nat, from: nat)
      requires first <= next < last && RangeTried(log, first, next, from, Returned(-1))
      ensures var log' := log + [Trying(next)];
              match environment(|log|)
              case Granted => RangeTried(log', first, next + 1, from, Returned(-1))
              case Refused => RangeTried(log', first, last, from, Returned(next))
              case Threw => RangeTried(log', first, last, from, Thrown)
    {
    }

    // The same for all positions but `hardLock`.
    ghost predicate OthersTried(log: seq<Asked>, hardLock: nat, from: nat, r: Outcome<int>) {
      && from <= |log| < from + |locks|
      && (forall n :: from <= n < |log| ==> log[n] == Trying(Order(hardLock, n + 1 - from)))
      && if r == Returned(-1) then |log| == from + |locks| - 1 && AllGranted(from, |log|)
         else
           && from < |log| && AllGranted(from, |log| - 1)
           && ((r == Returned(Order(hardLock, |log| - from)) && environment(|log| - 1) == Refused)
               || (r == Thrown && environment(|log| - 1) == Threw))
    }

    lemma FirstPartFails(log: seq<Asked>, hardLock: nat, from: nat, r: Outcome<int>)
      requires hardLock < |locks| && RangeTried(log, 0, hardLock, from, r) && r != Returned(-1)
      ensures OthersTried(log, hardLock, from, r)
    {
    }

    lemma BothPartsTried(before: seq<Asked>, after: seq<Asked>, hardLock: nat, from: nat, r: Outcome<int>)
      requires hardLock < |locks| && RangeTried(before, 0, hardLock, from, Returned(-1)) && before <= after
      requires RangeTried(after, hardLock + 1, |locks|, |before|, r)
      ensures OthersTried(after, hardLock, from, r)
    {
    }

    /**
     What an attempt begun at time `from` has asked, and how it ended: it blocks in `hardLock` and tries the
     others in order, up to the first answer that is not a grant. A refused try is followed by a pause, and its
     position is what the attempt returns.
     */
    ghost predicate Attempted(log: seq<Asked>, hardLock: nat, from: nat, r: Outcome<int>) {
      var f := FirstSetback(from, |locks|);
      && (if f == from + |locks| then
            |log| == f && r == Returned(-1)
          else if f == from || environment(f) == Threw then
            |log| == f + 1 && r == Ended(environment(f), -1)
          else
            |log| == f + 2 && log[f + 1] == Pausing && r == Ended(environment(f + 1), Order(hardLock, f - from) as int))
      && forall n {:trigger log[n]} :: from <= n <= f && n < |log| ==>
           log[n] == if n == from then Locking(hardLock) else Trying(Order(hardLock, n - from))
    }

    lemma BlockedIsAttempt(log: seq<Asked>, hardLock: nat, from: nat)
      requires |locks| > 0 && |log| == from + 1 && log[from] == Locking(hardLock) && environment(from) != Granted
      ensures Attempted(log, hardLock, from, Ended(environment(from), -1))
    {
      assert FirstSetback(from, |locks|) == from;
    }

    lemma RestMakesAttempt(log: seq<Asked>, hardLock: nat, from: nat, r: Outcome<int>)
      requires hardLock < |locks| && from < |log| && log[from] == Locking(hardLock) && environment(from) == Granted
      requires OthersTried(log, hardLock, from + 1, r)
      ensures r == Returned(-1) || r == Thrown ==> Attempted(log, hardLock, from, r)
      ensures r.Returned? && r.value != -1 ==>
                Attempted(log + [Pausing], hardLock, from, Ended(environment(|log|), r.value))
    {
      var f := FirstSetback(from, |locks|);
      assert f == if r == Returned(-1) then |log| else |log| - 1;
    }

    // The same for an attempt at two locks.
    ghost predicate AttemptedSmall2(log: seq<Asked>, idx0: nat, idx1: nat, from: nat, r: Outcome<bool>) {
      && from < |log| && log[from] == Locking(idx0)
      && if environment(from) != Granted then |log| == from + 1 && r == Ended(environment(from), false)
         else
           && from + 1 < |log| && log[from + 1] == Trying(idx1)
           && if environment(from + 1) != Refused then |log| == from + 2 && r == Ended(environment(from + 1), false)
              else |log| == from + 3 && log[from + 2] == Pausing && r == Ended(environment(from + 2), true)
    }

    // What the two-lock attempt returns, as the general attempt would.
    static function Failing(r: Outcome<bool>, idx1: nat): Outcome<int> {
      if r.Returned? then Returned(if r.value then idx1 else -1) else Propagate(r)
    }

    lemma SmallAttemptIsAttempt(log: seq<Asked>, idx0: nat, from: nat, r: Outcome<bool>)
      requires |locks| == 2 && idx0 < 2 && AttemptedSmall2(log, idx0, 1 - idx0, from, r)
      ensures Attempted(log, idx0, from, Failing(r, 1 - idx0))
    {
      assert Order(idx0, 1) == 1 - idx0;
    }

    // After a refused try come a pause and a blocking lock of that position, as far as the call has got.
    ghost predicate RetriesWithRefused(log: seq<Asked>, from: nat) {
      forall n {:trigger environment(n)} :: from <= n < |log| && environment(n) == Refused && log[n].Trying? ==>
        && (n + 1 < |log| ==> log[n + 1] == Pausing)
        && (n + 2 < |log| ==> log[n + 2] == Locking(log[n].i))
    }

    // Whether a call returned, threw or is under way, in terms of the answers it got.
    ghost predicate AnswersDecide(log: seq<Asked>, from: nat, rounds: nat, r: Outcome<()>) {
      && (r.Thrown? <==> SomeThrew(from, |log|))
      && (|locks| > 0 && rounds > 0 ==> from < |log| && log[from] == Locking(0))
      && (r.Returned? ==> from + |locks| <= |log| && AllGranted(|log| - |locks|, |log|))
      && (AllGranted(from, from + |locks|) && rounds > 0 ==> r.Returned? && |log| == from + |locks|)
      && (r.Running? && from < |log| ==>
           log[|log| - 1] == Pausing || (log[|log| - 1].Locking? && environment(|log| - 1) == Refused))
    }

    // Every attempt so far was refused; the last one, if any, at the position that is now to be locked first.
    ghost predicate Retrying(log: seq<Asked>, hardLock: nat, from: nat) {
      && from <= |log| && RetriesWithRefused(log, from) && !SomeThrew(from, |log|)
      && (if from < |log| then log[from] == Locking(0) else hardLock == 0)
      && (from < |log| ==>
           && from <= |log| - 2 && log[|log| - 2] == Trying(hardLock) && environment(|log| - 2) == Refused
           && log[|log| - 1] == Pausing && !AllGranted(from, from + |locks|))
    }

    lemma AttemptGoesOn(before: seq<Asked>, after: seq<Asked>, hardLock: nat, from: nat, rounds: nat, r: Outcome<int>)
      requires Retrying(before, hardLock, from) && before <= after && Attempted(after, hardLock, |before|, r)
      requires |locks| > 0 && hardLock < |locks|
      ensures RetriesWithRefused(after, from)
      ensures if r.Returned? && r.value >= 0 then r.value < |locks| && Retrying(after, r.value, from)
              else AnswersDecide(after, from, rounds, if r.Returned? then Returned(()) else Propagate(r))
    {
    }

    // ---- the calls ----

    method Ask(what: Asked) returns (answer: Answer)
      modifies this`log
      ensures answer == environment(|old(log)|) && log == old(log) + [what]
    {
      answer := environment(|log|);
      log := log + [what];
    }

    method LockRef(i: nat) returns (r: Outcome<()>)
      requires i < |locks|
      modifies this`log, this`holds
      ensures log == old(log) + [Locking(i)] && r == Ended(environment(|old(log)|), ())
      ensures if r.Returned? then Raised(old(holds), holds, multiset{locks[i]}) else holds == old(holds)
    {
      var answer := Ask(Locking(i));
      match answer
      case Granted => holds := holds + multiset{locks[i]}; r := Returned(());
      case Refused => r := Running;
      case Threw => r := Thrown;
    }

    method TryLockRef(i: nat) returns (r: Outcome<bool>)
      requires i < |locks|
      modifies this`log, this`holds
      ensures log == old(log) + [Trying(i)]
      ensures r == match environment(|old(log)|)
                   case Granted => Returned(true)
                   case Refused => Returned(false)
                   case Threw => Thrown
      ensures if r == Returned(true) then Raised(old(holds), holds, multiset{locks[i]}) else holds == old(holds)
    {
      var answer := Ask(Trying(i));
      match answer
      case Granted => holds := holds + multiset{locks[i]}; r := Returned(true);
      case Refused => r := Returned(false);
      case Threw => r := Thrown;
    }

    // An unlock by a non-owner would be ignored, so holding the lock is a proof obligation.
    method UnlockRef(i: nat)
      requires i < |locks| && locks[i] in holds
      modifies this`holds
      ensures Raised(holds, old(holds), multiset{locks[i]})
    {
      holds := holds - multiset{locks[i]};
    }

    // The pause after a failed attempt, and what the attempt returns if it comes back.
    method YieldThen<T>(value: T) returns (r: Outcome<T>)
      modifies this`log
      ensures log == old(log) + [Pausing] && r == Ended(environment(|old(log)|), value)
    {
      var answer := Ask(Pausing);
      r := match answer case Granted => Returned(value) case Refused => Running case Threw => Thrown;
    }

    // Unlocking just what was locked since `start`: one lock.
    method UnlockJust(i: nat, ghost start: multiset<Lock>)
      requires i < |locks| && Raised(start, holds, multiset{locks[i]})
      modifies this`holds
      ensures holds == start
    {
      ghost var before := holds;
      UnlockRef(i);
      RaisedThenLowered(start, before, holds, multiset{locks[i]});
    }

    method UnlockLocks(first: nat, last: nat)
      requires first <= last <= |locks| && Bag(locks, first, last) <= holds
      modifies this`holds
      ensures Raised(holds, old(holds), Bag(locks, first, last))
    {
      var i := first;
      while i != last
        invariant first <= i <= last
        invariant Raised(holds, old(holds), Bag(locks, first, i))
      {
        ghost var before := holds;
        NextIsHeld(locks, first, i, last, old(holds), holds);
        UnlockRef(i);
        LoweredByNext(locks, first, i, old(holds), before, holds);
        i := i + 1;
      }
    }

    // Unlocking just what was locked since `start`: a stretch of the batch.
    method BackOut(first: nat, last: nat, ghost start: multiset<Lock>)
      requires first <= last <= |locks| && Raised(start, holds, Bag(locks, first, last))
      modifies this`holds
      ensures holds == start
    {
      ghost var before := holds;
      BagIsHeld(locks, first, last, start, before);
      UnlockLocks(first, last);
      RaisedThenLowered(start, before, holds, Bag(locks, first, last));
    }

    /**
     All of [first, last), or nothing: the tries go on in order as long as they are granted. The first that
     is not decides: a refused one is the failing index, one that threw is an exception.
     */
    method TryLockRange(first: nat, last: nat) returns (r: Outcome<int>)
      requires first <= last <= |locks|
      modifies this`log, this`holds
      ensures old(log) <= log && RangeTried(log, first, last, |old(log)|, r)
      ensures r == Returned(-1) ==> Raised(old(holds), holds, Bag(locks, first, last))
      ensures r != Returned(-1) ==> holds == old(holds)
    {
      var next := first;
      while next != last
        invariant old(log) <= log && first <= next <= last
        invariant RangeTried(log, first, next, |old(log)|, Returned(-1))
        invariant Raised(old(holds), holds, Bag(locks, first, next))
      {
        ghost var before := holds;
        NextTried(log, first, next, last, |old(log)|);
        var result := TryLockRef(next);
        if result != Returned(true) {
          BackOut(first, next, old(holds));
          return if result.Thrown? then Thrown else Returned(next);
        }
        RaisedByNext(locks, first, next, old(holds), before, holds);
        next := next + 1;
      }
      return Returned(-1);
    }

    // The `try` block of an attempt that has its hard lock: either the whole batch is held, or
    // everything from `backoutStart` through the hard lock is what must be given back.
    method LockRest(hardLock: nat, ghost start: multiset<Lock>) returns (r: Outcome<int>, backoutStart: nat)
      requires hardLock < |locks| && Raised(start, holds, multiset{locks[hardLock]})
      modifies this`log, this`holds
      ensures old(log) <= log && OthersTried(log, hardLock, |old(log)|, r)
      ensures backoutStart <= hardLock
      ensures if r == Returned(-1) then Raised(start, holds, multiset(locks))
              else Raised(start, holds, Bag(locks, backoutStart, hardLock + 1))
    {
      backoutStart := hardLock;
      ghost var before := holds;
      r := TryLockRange(0, hardLock);
      if r != Returned(-1) {
        RaisedByNext(locks, hardLock, hardLock, start, start, holds);
        FirstPartFails(log, hardLock, |old(log)|, r);
        return;
      }
      ghost var asked := log;
      backoutStart := 0;
      ghost var between := holds;
      r := TryLockRange(hardLock + 1, |locks|);
      BothPartsTried(asked, log, hardLock, |old(log)|, r);
      if r == Returned(-1) {
        RaisedByAll(locks, hardLock, start, before, between, holds);
      } else {
        RaisedThrough(locks, hardLock, start, before, holds);
      }
    }

    /**
     One attempt at three or more locks, starting with `hardLock`. It succeeds with the whole batch; in
     every other case, blocked in the first lock included, it holds what it held before.
     */
    method LockAttempt(hardLock: nat) returns (r: Outcome<int>)
      requires hardLock < |locks|
      modifies this`log, this`holds
      ensures old(log) <= log && Attempted(log, hardLock, |old(log)|, r)
      ensures r == Returned(-1) ==> Raised(old(holds), holds, multiset(locks))
      ensures r != Returned(-1) ==> holds == old(holds)
    {
      var locked := LockRef(hardLock);
      if !locked.Returned? {
        BlockedIsAttempt(log, hardLock, |old(log)|);
        return Propagate(locked);
      }
      r := AttemptRest(hardLock, old(holds));
    }

    // The attempt from where its hard lock has been granted.
    method AttemptRest(hardLock: nat, ghost start: multiset<Lock>) returns (r: Outcome<int>)
      requires hardLock < |locks| && Raised(start, holds, multiset{locks[hardLock]})
      requires |log| > 0 && environment(|log| - 1) == Granted && log[|log| - 1] == Locking(hardLock)
      modifies this`log, this`holds
      ensures old(log) <= log && Attempted(log, hardLock, |old(log)| - 1, r)
      ensures if r == Returned(-1) then Raised(start, holds, multiset(locks)) else holds == start
    {
      r := RestOrBackOut(hardLock, start);
      RestMakesAttempt(log, hardLock, |old(log)| - 1, r);
      if r.Returned? && r.value != -1 {
        r := YieldThen(r.value);
      }
    }

    method RestOrBackOut(hardLock: nat, ghost start: multiset<Lock>) returns (r: Outcome<int>)
      requires hardLock < |locks| && Raised(start, holds, multiset{locks[hardLock]})
      modifies this`log, this`holds
      ensures old(log) <= log && OthersTried(log, hardLock, |old(log)|, r)
      ensures if r == Returned(-1) then Raised(start, holds, multiset(locks)) else holds == start
    {
      var backoutStart;
      r, backoutStart := LockRest(hardLock, start);
      if r != Returned(-1) {
        BackOut(backoutStart, hardLock + 1, start);
      }
    }

    // `rounds` bounds how many attempts of the retry loop are observed; the loop itself has no bound.
    method LockNonmember3(rounds: nat) returns (r: Outcome<()>)
      requires |locks| > 0
      modifies this`log, this`holds
      ensures old(log) <= log && RetriesWithRefused(log, |old(log)|) && AnswersDecide(log, |old(log)|, rounds, r)
      ensures r.Returned? ==> Raised(old(holds), holds, multiset(locks))
      ensures !r.Returned? ==> holds == old(holds)
    {
      var hardLock: int := 0;
      var round := 0;
      while hardLock != -1
        invariant old(log) <= log
        invariant if hardLock == -1 then Raised(old(holds), holds, multiset(locks)) else holds == old(holds)
        invariant hardLock != -1 ==> 0 <= hardLock < |locks| && Retrying(log, hardLock, |old(log)|)
        invariant hardLock == -1 ==>
                    RetriesWithRefused(log, |old(log)|) && AnswersDecide(log, |old(log)|, rounds, Returned(()))
        invariant round <= rounds && (round == 0 <==> |log| == |old(log)|)
        decreases rounds - round, hardLock != -1
      {
        if round == rounds {
          return Running;
        }
        ghost var before := log;
        var result := LockAttempt(hardLock);
        AttemptGoesOn(before, log, hardLock, |old(log)|, rounds, result);
        if !result.Returned? {
          return Propagate(result);
        }
        hardLock := result.value;
        round := round + 1;
      }
      return Returned(());
    }

    /** The two-lock attempt: returns whether to try again. */
    method LockAttemptSmall2(idx0: nat, idx1: nat) returns (r: Outcome<bool>)
      requires idx0 < |locks| && idx1 < |locks|
      modifies this`log, this`holds
      ensures old(log) <= log && AttemptedSmall2(log, idx0, idx1, |old(log)|, r)
      ensures r == Returned(false) ==> Raised(old(holds), holds, multiset{locks[idx0], locks[idx1]})
      ensures r != Returned(false) ==> holds == old(holds)
    {
      var locked := LockRef(idx0);
      if !locked.Returned? {
        return Propagate(locked);
      }
      var result := TryLockRef(idx1);
      if result == Returned(true) {
        return Returned(false);
      }
      UnlockJust(idx0, old(holds));
      if result.Thrown? {
        return Thrown;
      }
      r := YieldThen(true);
    }

    method LockNonmember2(rounds: nat) returns (r: Outcome<()>)
      requires |locks| == 2
      modifies this`log, this`holds
      ensures old(log) <= log && RetriesWithRefused(log, |old(log)|) && AnswersDecide(log, |old(log)|, rounds, r)
      ensures r.Returned? ==> Raised(old(holds), holds, multiset(locks))
      ensures !r.Returned? ==> holds == old(holds)
    {
      assert locks == [locks[0], locks[1]];
      var round := 0;
      while round < rounds
        invariant old(log) <= log && Retrying(log, 0, |old(log)|)
        invariant round <= rounds && holds == old(holds) && (round == 0 <==> |log| == |old(log)|)
      {
        var result := AttemptOfTwo(0, |old(log)|, rounds);
        if !result.Returned? {
          return Propagate(result);
        }
        if !result.value {
          return Returned(());
        }
        result := AttemptOfTwo(1, |old(log)|, rounds);
        if !result.Returned? {
          return Propagate(result);
        }
        if !result.value {
          return Returned(());
        }
        round := round + 1;
      }
      return Running;
    }

    // An attempt at both locks of a batch of two, as part of the call begun at time `from`.
    method AttemptOfTwo(hardLock: nat, ghost from: nat, ghost rounds: nat) returns (r: Outcome<bool>)
      requires |locks| == 2 && hardLock < 2 && Retrying(log, hardLock, from)
      modifies this`log, this`holds
      ensures old(log) <= log && RetriesWithRefused(log, from)
      ensures if r == Returned(false) then Raised(old(holds), holds, multiset{locks[0], locks[1]})
              else holds == old(holds)
      ensures if r == Returned(true) then Retrying(log, 1 - hardLock, from) && |old(log)| < |log|
              else AnswersDecide(log, from, rounds, if r.Returned? then Returned(()) else Propagate(r))
    {
      r := LockAttemptSmall2(hardLock, 1 - hardLock);
      SmallAttemptIsAttempt(log, hardLock, |old(log)|, r);
      AttemptGoesOn(old(log), log, hardLock, from, rounds, Failing(r, 1 - hardLock));
    }

    /**
     The batch lock. A normal return raises the hold on each lock by one per occurrence in the batch. A
     call that threw, or that has not come back (blocked, pausing or about to retry), holds what it held
     before it was made.
     */
    method LockRange(rounds: nat) returns (r: Outcome<()>)
      modifies this`log, this`holds
      ensures old(log) <= log && RetriesWithRefused(log, |old(log)|) && AnswersDecide(log, |old(log)|, rounds, r)
      ensures r.Returned? ==> Raised(old(holds), holds, multiset(locks))
      ensures !r.Returned? ==> holds == old(holds)
    {
      if |locks| == 0 {
        r := Returned(());
      } else if |locks| == 1 {
        assert locks == [locks[0]];
        r := LockRef(0);
      } else if |locks| == 2 {
        r := LockNonmember2(rounds);
      } else {
        r := LockNonmember3(rounds);
      }
    }

    // Unlocking a lock that is not held is ignored.
    method UnlockIfHeld(i: nat)
      requires i < |locks|
      modifies this`holds
      ensures Dropped(old(holds), holds, multiset{locks[i]})
    {
      if locks[i] in holds {
        holds := holds - multiset{locks[i]};
      }
    }

    /** The destructor of the batch guard: every lock of the batch is unlocked, held or not. */
    method DestroyGuard()
      modifies this`holds
      ensures Dropped(old(holds), holds, multiset(locks))
    {
      for i := 0 to |locks|
        invariant Dropped(old(holds), holds, Bag(locks, 0, i))
      {
        UnlockIfHeld(i);
        assert forall l: Lock :: Bag(locks, 0, i + 1)[l] == Bag(locks, 0, i)[l] + multiset{locks[i]}[l];
      }
      WholeBag(locks);
    }

    /**
     The awaited batch lock, whose guard exists before the locking starts. If the locking throws, the guard
     goes with it: beside what `LockRange` has given back, each hold on a lock of the batch that the owner
     had before is released as well. So the owner keeps what it held if and only if it held none of them.
     */
    method LockGuarded(rounds: nat) returns (r: Outcome<()>)
      modifies this`log, this`holds
      ensures AnswersDecide(log, |old(log)|, rounds, r)
      ensures r.Returned? ==> Raised(old(holds), holds, multiset(locks))
      ensures r.Running? ==> holds == old(holds)
      ensures r.Thrown? ==> Dropped(old(holds), holds, multiset(locks))
      ensures r.Thrown? ==> (holds == old(holds) <==> forall i :: 0 <= i < |locks| ==> old(holds)[locks[i]] == 0)
    {
      r := LockRange(rounds);
      if r.Thrown? {
        DestroyGuard();
        DropKeepsIff(old(holds), holds, locks);
      }
    }

    /** A guard that was returned gives back, at its end, exactly what the locking took. */
    method LockGuardedThenDestroy(rounds: nat) returns (r: Outcome<()>)
      modifies this`log, this`holds
      ensures AnswersDecide(log, |old(log)|, rounds, r)
      ensures !r.Thrown? ==> holds == old(holds)
      ensures r.Thrown? ==> Dropped(old(holds), holds, multiset(locks))
    {
      r := LockGuarded(rounds);
      if r.Returned? {
        ghost var locked := holds;
        DestroyGuard();
        DropUndoesRaise(old(holds), locked, holds, multiset(locks));
      }
    }

    /**
     The batch lock by address, whose guard is made once the locking has returned: in every case the
     owner ends with what it held.
     */
    method LockThenDestroy(rounds: nat) returns (r: Outcome<()>)
      modifies this`log, this`holds
      ensures AnswersDecide(log, |old(log)|, rounds, r)
      ensures holds == old(holds)
    {
      r := LockRange(rounds);
      if r.Returned? {
        ghost var locked := holds;
        DestroyGuard();
        DropUndoesRaise(old(holds), locked, holds, multiset(locks));
      }
    }
  }

  /** An owner that holds a lock and fails to lock it again as a batch: the guard releases the lock it had. */
  method FailedBatchLosesAHold() returns (a: Assembly, before: multiset<Lock>)
    ensures fresh(a) && before == multiset{0} && a.holds == multiset{}
  {
    a := new Assembly([0], n => if n == 0 then Granted else Threw);
    var _ := a.LockRef(0);
    before := a.holds;
    var r := a.LockGuarded(1);
    assert a.environment(1) == Threw;
    assert r.Thrown?;
    assert before == multiset{0} by {
      assert forall l: Lock :: before[l] == multiset{0}[l];
    }
    assert a.holds == multiset{} by {
      assert forall l: Lock :: a.holds[l] == 0;
    }
  }
}
