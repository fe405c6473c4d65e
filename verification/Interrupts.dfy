/** Nested interrupt masking: the spl level and the count of raises of a thread, against
    the interrupt state of the processor it runs on; and spinlocks, which raise and lower
    it independently. */
module Interrupts {

  /** t_curspl (true for IPL_HIGH) and t_iplhigh_count of the current thread, and whether
      the processor has interrupts off. */
  datatype Level = Level(spl: bool, count: int, irqOff: bool)

  function SplRaise(l: Level): Level { Level(l.spl, l.count + 1, l.irqOff || l.count == 0) }

  function SplLower(l: Level): Level { Level(l.spl, l.count - 1, l.irqOff && l.count != 1) }

  function Splx(l: Level, spl: bool): Level {
    if !l.spl && spl then SplRaise(l).(spl := true)
    else if l.spl && !spl then SplLower(l.(spl := false))
    else l
  }

  /** The count is one for a raised spl and one for each spinlock, and interrupts are
      off exactly when it is positive. */
  predicate Balanced(l: Level, locks: int) {
    l.count == (if l.spl then 1 else 0) + locks && (l.irqOff <==> l.count > 0)
  }

  /** What a thread does to its level: spl calls, and acquiring and releasing spinlocks. */
  datatype Call = CallSpl(level: bool) | CallAcquire | CallRelease

  function LevelAfter(l: Level, calls: seq<Call>): Level {
    if calls == [] then l
    else
      var m := LevelAfter(l, calls[..|calls| - 1]);
      match calls[|calls| - 1]
      case CallSpl(level) => Splx(m, level)
      case CallAcquire => SplRaise(m)
      case CallRelease => SplLower(m)
  }

  function LocksAfter(locks: int, calls: seq<Call>): int {
    if calls == [] then locks
    else
      var n := LocksAfter(locks, calls[..|calls| - 1]);
      match calls[|calls| - 1] case CallSpl(_) => n case CallAcquire => n + 1 case CallRelease => n - 1
  }

  /** However spl calls and spinlocks are interleaved, nested or not, as long as no lock
      is released before it was acquired, interrupts go off with the first raise and on
      again only with the last. */
  lemma {:induction false} CallsKeepBalance(l: Level, locks: nat, calls: seq<Call>)
    requires Balanced(l, locks)
    requires forall i :: 0 <= i <= |calls| ==> LocksAfter(locks, calls[..i]) >= 0
    ensures Balanced(LevelAfter(l, calls), LocksAfter(locks, calls))
  {
    if calls != [] {
      var n := |calls| - 1;
      forall i | 0 <= i <= n ensures LocksAfter(locks, calls[..n][..i]) >= 0 {
        assert calls[..n][..i] == calls[..i];
      }
      CallsKeepBalance(l, locks, calls[..n]);
      assert calls[..|calls|] == calls;
      assert LocksAfter(locks, calls[..n]) >= 0;
    }
  }

  /** The current thread's fields and the processor's interrupt state. */
  class Processor {
    var curspl: bool
    var iplhighCount: int
    var irqOff: bool

    ghost function Contents(): Level
      reads this
    {
      Level(curspl, iplhighCount, irqOff)
    }

    method Raise()
      modifies this
      ensures Contents() == SplRaise(old(Contents()))
    {
      if iplhighCount == 0 { irqOff := true; }
      iplhighCount := iplhighCount + 1;
    }

    method Lower()
      modifies this
      ensures Contents() == SplLower(old(Contents()))
    {
      iplhighCount := iplhighCount - 1;
      if iplhighCount == 0 { irqOff := false; }
    }

    method SetLevel(spl: bool) returns (ret: bool)
      modifies this
      ensures Contents() == Splx(old(Contents()), spl) && ret == old(curspl)
    {
      if !curspl && spl {
        Raise();
        ret := curspl;
        curspl := spl;
      } else if curspl && !spl {
        ret := curspl;
        curspl := spl;
        Lower();
      } else {
        ret := spl;
      }
    }
  }
}
