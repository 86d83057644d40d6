/** Bounded, adjacent-de-duplicated histories.

    The registry and the history worker keep URL histories and workspace histories the same way:
    a value equal to the newest entry is skipped, anything else is appended, and the oldest entries
    are dropped until a count bound and a size bound hold. This module shows that such a history is
    always a window onto an unbounded log: the longest suffix of the log that fits. */
module BoundedLog {

  datatype Limits = Limits(entries: nat, bytes: nat)

  function TotalSize<T>(s: seq<T>, size: T -> nat): nat {
    if s == [] then 0 else size(s[0]) + TotalSize(s[1..], size)
  }

  predicate Fits<T>(s: seq<T>, lim: Limits, size: T -> nat) {
    |s| <= lim.entries && TotalSize(s, size) <= lim.bytes
  }

  /** The longest suffix of `s` within the limits. */
  function Trim<T>(s: seq<T>, lim: Limits, size: T -> nat): (r: seq<T>)
    ensures |r| <= |s| && r == s[|s| - |r|..]
  {
    if s == [] || Fits(s, lim, size) then s else Trim(s[1..], lim, size)
  }

  /** It is: it fits, and no longer suffix does. */
  lemma {:induction false} TrimIsLongest<T>(s: seq<T>, lim: Limits, size: T -> nat)
    ensures Fits(Trim(s, lim, size), lim, size)
    ensures forall j :: 0 <= j < |s| - |Trim(s, lim, size)| ==> !Fits(s[j..], lim, size)
  {
    if s != [] && !Fits(s, lim, size) {
      TrimIsLongest(s[1..], lim, size);
      assert forall j :: 1 <= j <= |s| ==> s[j..] == s[1..][j - 1..];
    }
  }

  /** Appends to the unbounded log unless `x` repeats its newest entry. */
  function Push<T(==)>(log: seq<T>, x: T): seq<T> {
    if log != [] && log[|log| - 1] == x then log else log + [x]
  }

  /** Appends to a bounded history. */
  function PushTrim<T(==)>(h: seq<T>, x: T, lim: Limits, size: T -> nat): seq<T> {
    if h != [] && h[|h| - 1] == x then h else Trim(h + [x], lim, size)
  }

  /** `h` with flag `truncated` is the bounded view of `log`. The first entry is stored as given,
      before any trimming has run. */
  ghost predicate Mirrors<T(!new)>(log: seq<T>, h: seq<T>, truncated: bool, lim: Limits, size: T -> nat) {
    && (h == Trim(log, lim, size) || (|log| == 1 && h == log))
    && (truncated <==> |h| < |log|)
    && (log != [] ==> h != [])
  }

  lemma {:induction false} TotalSizeAppend<T>(s: seq<T>, x: T, size: T -> nat)
    ensures TotalSize(s + [x], size) == TotalSize(s, size) + size(x)
  {
    if s == [] {
      assert [x][1..] == [];
    } else {
      assert (s + [x])[1..] == s[1..] + [x];
      TotalSizeAppend(s[1..], x, size);
    }
  }

  /** Trimming early never changes what a later trim keeps. */
  lemma {:induction false} TrimAppend<T>(s: seq<T>, x: T, lim: Limits, size: T -> nat)
    ensures Trim(Trim(s, lim, size) + [x], lim, size) == Trim(s + [x], lim, size)
  {
    if !Fits(s, lim, size) {
      TotalSizeAppend(s, x, size);
      assert (s + [x])[1..] == s[1..] + [x];
      TrimAppend(s[1..], x, lim, size);
    }
  }

  /** A value that fits on its own is never trimmed away by its own arrival. */
  lemma {:induction false} NewestSurvives<T>(s: seq<T>, x: T, lim: Limits, size: T -> nat)
    requires 1 <= lim.entries && size(x) <= lim.bytes
    ensures Trim(s + [x], lim, size) != []
    ensures Trim(s + [x], lim, size)[|Trim(s + [x], lim, size)| - 1] == x
  {
    assert (s + [x])[|s|..] == [x];
    TotalSizeAppend([], x, size);
    assert [] + [x] == [x];
    assert Fits((s + [x])[|s|..], lim, size);
    TrimIsLongest(s + [x], lim, size);
  }

  /** Right after an observation the history ends in it, so observing it again changes nothing. */
  lemma PushTrimRepeats<T>(h: seq<T>, x: T, lim: Limits, size: T -> nat)
    requires 1 <= lim.entries && size(x) <= lim.bytes
    ensures var r := PushTrim(h, x, lim, size);
            r != [] && r[|r| - 1] == x && PushTrim(r, x, lim, size) == r && Push(r, x) == r
  {
    NewestSurvives(h, x, lim, size);
  }

  lemma TrimOfNothing<T>(lim: Limits, size: T -> nat)
    ensures Trim([], lim, size) == []
  {
  }

  /** One observation keeps the bounded history a view of the unbounded log. */
  lemma {:induction false} PushMirrors<T(!new)>(log: seq<T>, h: seq<T>, truncated: bool, x: T, lim: Limits,
                                                size: T -> nat)
    requires Mirrors(log, h, truncated, lim, size)
    requires 1 <= lim.entries && size(x) <= lim.bytes
    ensures Mirrors(Push(log, x), PushTrim(h, x, lim, size),
                    truncated || |PushTrim(h, x, lim, size)| < |Push(h, x)|, lim, size)
  {
    hide Trim, TotalSize, Fits;
    assert h != [] ==> h[|h| - 1] == log[|log| - 1];
    TrimOfNothing(lim, size);
    if log == [] {
      assert [] + [x] == [x];
    }
    if h == [] || h[|h| - 1] != x {
      NewestSurvives(log, x, lim, size);
      TrimAppend(log, x, lim, size);
    }
  }

  /** The trimming loop over a Rust vector. */
  method TrimHistory<T>(history: seq<T>, truncated: bool, lim: Limits, size: T -> nat)
    returns (kept: seq<T>, flag: bool)
    ensures kept == Trim(history, lim, size)
    ensures flag <==> truncated || |kept| < |history|
  {
    kept, flag := history, truncated;
    while !Fits(kept, lim, size)
      invariant |kept| <= |history|
      invariant Trim(kept, lim, size) == Trim(history, lim, size)
      invariant flag <==> truncated || |kept| < |history|
      decreases |kept|
    {
      if kept == [] {
        break;
      }
      kept := kept[1..];
      flag := true;
    }
  }

  /** Appending to a Rust vector: a repeat is skipped, anything else is appended and the result trimmed. */
  method AppendTrimmed<T(==)>(h: seq<T>, truncated: bool, x: T, lim: Limits, size: T -> nat)
    returns (r: seq<T>, flag: bool)
    ensures r == PushTrim(h, x, lim, size)
    ensures flag <==> truncated || |r| < |Push(h, x)|
  {
    PushIs(h, x, lim, size);
    hide *;
    r, flag := h, truncated;
    if h == [] || h[|h| - 1] != x {
      r, flag := TrimHistory(h + [x], truncated, lim, size);
    }
  }

  lemma {:induction false} PushIs<T>(h: seq<T>, x: T, lim: Limits, size: T -> nat)
    ensures PushTrim(h, x, lim, size) == if h != [] && h[|h| - 1] == x then h else Trim(h + [x], lim, size)
    ensures Push(h, x) == if h != [] && h[|h| - 1] == x then h else h + [x]
  {
    hide Trim, TotalSize, Fits;
  }
}
