/** Start times of web videos (`parse_timestamp`): "1h2m3s", "90", "90s". */
module Timestamp {
  import opened Wrappers
  import opened Numbers
  import opened Text

  datatype Unit = Hours | Minutes | Seconds
  datatype Group = Group(digits: string, unit: Unit)

  /** `n` units in seconds. */
  function Amount(u: Unit, n: nat): (r: nat)
    ensures n <= r
  {
    match u case Hours => 3600 * n case Minutes => 60 * n case Seconds => n
  }

  function Tag(u: Unit): char { match u case Hours => 'h' case Minutes => 'm' case Seconds => 's' }

  predicate IsNumber(s: string) { s != [] && AllDigits(s) }

  predicate ValidGroups(groups: seq<Group>, last: string) {
    AllDigits(last) && forall i :: 0 <= i < |groups| ==> IsNumber(groups[i].digits)
  }

  /** Tagged groups in any order, then digits without a tag. */
  function Written(groups: seq<Group>, last: string): string {
    if groups == [] then last
    else groups[0].digits + [Tag(groups[0].unit)] + Written(groups[1..], last)
  }

  function Sum(groups: seq<Group>, last: string): nat
    requires ValidGroups(groups, last)
  {
    if groups == [] then Value(last)
    else Amount(groups[0].unit, Value(groups[0].digits)) + Sum(groups[1..], last)
  }

  function WithinU64(n: nat): Option<nat> { if n <= MAX_U64 then Some(n) else None }

  function UnitOf(c: char): Option<Unit> {
    if c == 'h' then Some(Hours) else if c == 'm' then Some(Minutes) else if c == 's' then Some(Seconds) else None
  }

  /** The general loop: `pending` are the digits read since the last tag. */
  function Scan(s: string, total: nat, pending: string): Option<nat>
    requires AllDigits(pending)
  {
    if s == [] then WithinU64(total + Value(pending))
    else if IsDigit(s[0]) then
      if Value(pending + [s[0]]) > MAX_U64 then None else Scan(s[1..], total, pending + [s[0]])
    else if UnitOf(s[0]).None? || pending == [] then None
    else
      var amount := Amount(UnitOf(s[0]).value, Value(pending));
      if total + amount > MAX_U64 then None else Scan(s[1..], total + amount, [])
  }

  function StripS(v: string): string { if v != [] && v[|v| - 1] == 's' then v[..|v| - 1] else v }

  function ParsedTrimmed(v: string): Option<nat> {
    if v == [] then None
    else if ParseUnsigned(v, MAX_U64).Some? then ParseUnsigned(v, MAX_U64)
    else if ParseUnsigned(StripS(v), MAX_U64).Some? then ParseUnsigned(StripS(v), MAX_U64)
    else Scan(v, 0, [])
  }

  function Parsed(value: string): Option<nat> { ParsedTrimmed(Trimmed(value)) }

  lemma AppendDigit(pending: string, c: char)
    requires AllDigits(pending) && IsDigit(c)
    ensures Value(pending + [c]) == Value(pending) * 10 + DigitValue(c)
  {
    assert (pending + [c])[..|pending|] == pending;
  }

  /** `checked_mul` by the unit's weight, then `checked_add`. */
  method AddAmount(total: nat, current: nat, unit: Unit) returns (r: Option<nat>)
    ensures r == WithinU64(total + Amount(unit, current))
  {
    var amount := Amount(unit, current);
    if amount > MAX_U64 {
      return None;
    }
    if total + amount > MAX_U64 {
      return None;
    }
    r := Some(total + amount);
  }

  method ScanLoop(v: string) returns (r: Option<nat>)
    ensures r == Scan(v, 0, [])
  {
    var total, current, matched := 0, 0, false;
    ghost var pending: string := [];
    var i := 0;
    while i < |v|
      invariant 0 <= i <= |v|
      invariant AllDigits(pending) && current == Value(pending) && (matched <==> pending != [])
      invariant Scan(v[i..], total, pending) == Scan(v, 0, [])
    {
      var c := v[i];
      assert v[i..][1..] == v[i + 1..];
      if IsDigit(c) {
        AppendDigit(pending, c);
        if current * 10 > MAX_U64 || current * 10 + DigitValue(c) > MAX_U64 {
          return None;
        }
        current := current * 10 + DigitValue(c);
        matched := true;
        pending := pending + [c];
      } else if UnitOf(c).Some? && matched {
        var sum := AddAmount(total, current, UnitOf(c).value);
        if sum.None? {
          return None;
        }
        total, current, matched := sum.value, 0, false;
        pending := [];
      } else {
        return None;
      }
      i := i + 1;
    }
    if matched {
      r := AddAmount(total, current, Seconds);
      return;
    }
    r := WithinU64(total);
  }

  method ParseTimestamp(value: string) returns (r: Option<nat>)
    ensures r == Parsed(value)
  {
    var v := Trimmed(value);
    if v == [] {
      return None;
    }
    r := ParseUnsigned(v, MAX_U64);
    if r.None? {
      r := ParseUnsigned(StripS(v), MAX_U64);
    }
    if r.None? {
      r := ScanLoop(v);
    }
  }

  // ---- exactness ----

  lemma ValueGrows(s: string, t: string)
    requires AllDigits(s) && AllDigits(t)
    ensures AllDigits(s + t) && Value(s) <= Value(s + t)
  {
    ValueConcat(s, t);
    PowerIsPositive(|t|);
    Multiply(Value(s), Power10(|t|));
  }

  lemma {:induction false} PowerIsPositive(n: nat)
    ensures Power10(n) >= 1
  {
    if n > 0 { PowerIsPositive(n - 1); }
  }

  lemma Multiply(a: nat, b: nat)
    requires b >= 1
    ensures a <= a * b
  {
  }

  lemma {:induction false} ScanDigits(d: string, rest: string, total: nat, pending: string)
    requires AllDigits(d) && AllDigits(pending) && Value(pending) <= MAX_U64
    ensures AllDigits(pending + d)
    ensures Scan(d + rest, total, pending)
            == if Value(pending + d) > MAX_U64 then None else Scan(rest, total, pending + d)
  {
    if d == [] {
      assert d + rest == rest && pending + d == pending;
    } else {
      assert (d + rest)[0] == d[0] && (d + rest)[1..] == d[1..] + rest;
      assert pending + d == (pending + [d[0]]) + d[1..];
      ValueGrows(pending + [d[0]], d[1..]);
      if Value(pending + [d[0]]) <= MAX_U64 {
        ScanDigits(d[1..], rest, total, pending + [d[0]]);
      }
    }
  }

  lemma ScanTag(u: Unit, more: string, total: nat, pending: string)
    requires IsNumber(pending)
    ensures Scan([Tag(u)] + more, total, pending)
            == var sum := total + Amount(u, Value(pending)); if sum > MAX_U64 then None else Scan(more, sum, [])
  {
    var s := [Tag(u)] + more;
    assert s[0] == Tag(u) && s[1..] == more && UnitOf(s[0]) == Some(u) && !IsDigit(s[0]);
  }

  lemma {:induction false} ScanGroups(groups: seq<Group>, last: string, total: nat)
    requires ValidGroups(groups, last) && total <= MAX_U64
    ensures Scan(Written(groups, last), total, []) == WithinU64(total + Sum(groups, last))
  {
    if groups == [] {
      assert last + [] == last && [] + last == last;
      ScanDigits(last, [], total, []);
    } else {
      var g, more := groups[0], Written(groups[1..], last);
      ScanGroup(g, more, total);
      assert IsNumber(g.digits);
      var sum := total + Amount(g.unit, Value(g.digits));
      if sum <= MAX_U64 {
        ScanGroups(groups[1..], last, sum);
      }
    }
  }

  lemma ScanFresh(d: string, rest: string, total: nat)
    requires AllDigits(d)
    ensures Scan(d + rest, total, []) == if Value(d) > MAX_U64 then None else Scan(rest, total, d)
  {
    assert [] + d == d;
    ScanDigits(d, rest, total, []);
  }

  lemma ScanGroup(g: Group, more: string, total: nat)
    requires IsNumber(g.digits)
    ensures Scan(g.digits + [Tag(g.unit)] + more, total, [])
            == var sum := total + Amount(g.unit, Value(g.digits)); if sum > MAX_U64 then None else Scan(more, sum, [])
  {
    hide Scan, Value;
    var rest := [Tag(g.unit)] + more;
    var value := Value(g.digits);
    calc {
      Scan(g.digits + [Tag(g.unit)] + more, total, []);
      { assert g.digits + [Tag(g.unit)] + more == g.digits + rest; }
      Scan(g.digits + rest, total, []);
      { ScanFresh(g.digits, rest, total); }
      if value > MAX_U64 then None else Scan(rest, total, g.digits);
      { ScanTag(g.unit, more, total, g.digits); }
      if value > MAX_U64 || total + Amount(g.unit, value) > MAX_U64 then None
      else Scan(more, total + Amount(g.unit, value), []);
    }
  }

  lemma ScanNumber(d: string)
    requires AllDigits(d)
    ensures Scan(d, 0, []) == WithinU64(Value(d))
  {
    ScanGroups([], d, 0);
  }

  lemma ScanSeconds(d: string)
    requires IsNumber(d)
    ensures Scan(d + "s", 0, []) == WithinU64(Value(d))
  {
    ScanGroup(Group(d, Seconds), [], 0);
    assert d + [Tag(Seconds)] + [] == d + "s";
  }

  /** Away from a plus sign the two early returns say what the general loop would. */
  lemma EarlyReturnsAgree(v: string)
    requires v != [] && v[0] != '+'
    ensures ParseUnsigned(v, MAX_U64).Some? ==> ParseUnsigned(v, MAX_U64) == Scan(v, 0, [])
    ensures ParseUnsigned(StripS(v), MAX_U64).Some? ==> ParseUnsigned(StripS(v), MAX_U64) == Scan(v, 0, [])
  {
    hide Scan, Value;
    if AllDigits(v) {
      ScanNumber(v);
    }
    var d := StripS(v);
    if d != v && IsNumber(d) {
      ScanSeconds(d);
      assert d + "s" == v;
    }
  }

  lemma {:induction false} WrittenEnds(groups: seq<Group>, last: string)
    requires ValidGroups(groups, last) && Written(groups, last) != []
    ensures var s := Written(groups, last);
            IsDigit(s[0]) && (IsDigit(s[|s| - 1]) || UnitOf(s[|s| - 1]).Some?)
  {
    if groups != [] {
      var rest := Written(groups[1..], last);
      assert IsNumber(groups[0].digits);
      if rest != [] {
        WrittenEnds(groups[1..], last);
      }
    }
  }

  lemma ParseIsScan(v: string)
    requires v != [] && v[0] != '+'
    ensures ParsedTrimmed(v) == Scan(v, 0, [])
  {
    EarlyReturnsAgree(v);
  }

  lemma {:induction false} WrittenIsTrimmed(groups: seq<Group>, last: string)
    requires ValidGroups(groups, last) && Written(groups, last) != []
    ensures Trimmed(Written(groups, last)) == Written(groups, last) && Written(groups, last)[0] != '+'
  {
    WrittenEnds(groups, last);
    TrimmedIs(Written(groups, last));
  }

  /** Any written time is parsed to its weighted sum, or refused exactly when the sum exceeds u64. */
  lemma {:induction false} ParseIsExact(groups: seq<Group>, last: string)
    requires ValidGroups(groups, last) && Written(groups, last) != []
    ensures Parsed(Written(groups, last)) == WithinU64(Sum(groups, last))
  {
    WrittenIsTrimmed(groups, last);
    ScanGroups(groups, last, 0);
    ParseIsScan(Written(groups, last));
  }

  lemma {:induction false} WrittenOneMore(g: Group, groups: seq<Group>, last: string)
    requires IsNumber(g.digits) && ValidGroups(groups, last)
    ensures Written([g] + groups, last) == g.digits + [Tag(g.unit)] + Written(groups, last)
    ensures ValidGroups([g] + groups, last)
    ensures Sum([g] + groups, last) == Amount(g.unit, Value(g.digits)) + Sum(groups, last)
  {
    assert ([g] + groups)[1..] == groups;
  }

  lemma {:induction false} WrittenHms(a: string, b: string, c: string)
    requires IsNumber(a) && IsNumber(b) && IsNumber(c)
    ensures var groups := [Group(a, Hours), Group(b, Minutes), Group(c, Seconds)];
            && ValidGroups(groups, [])
            && Written(groups, []) == a + ['h'] + (b + ['m'] + (c + ['s'] + []))
            && Sum(groups, []) == 3600 * Value(a) + (60 * Value(b) + (Value(c) + 0))
  {
    WrittenOneMore(Group(c, Seconds), [], []);
    WrittenOneMore(Group(b, Minutes), [Group(c, Seconds)], []);
    WrittenOneMore(Group(a, Hours), [Group(b, Minutes), Group(c, Seconds)], []);
    assert [Group(c, Seconds)] + [] == [Group(c, Seconds)];
    assert [Group(b, Minutes)] + [Group(c, Seconds)] == [Group(b, Minutes), Group(c, Seconds)];
    assert [Group(a, Hours)] + [Group(b, Minutes), Group(c, Seconds)]
        == [Group(a, Hours), Group(b, Minutes), Group(c, Seconds)];
  }

  function Hms(a: string, b: string, c: string): string { a + "h" + (b + "m" + (c + "s")) }

  lemma {:induction false} HmsIsWritten(a: string, b: string, c: string, n: nat)
    requires IsNumber(a) && IsNumber(b) && IsNumber(c) && n == 3600 * Value(a) + 60 * Value(b) + Value(c)
    ensures var groups := [Group(a, Hours), Group(b, Minutes), Group(c, Seconds)];
            ValidGroups(groups, []) && Written(groups, []) == Hms(a, b, c) && Sum(groups, []) == n
  {
    hide Written, Value;
    WrittenHms(a, b, c);
    assert c + ['s'] + [] == c + "s";
  }

  lemma {:induction false} ParseHms(a: string, b: string, c: string, n: nat)
    requires IsNumber(a) && IsNumber(b) && IsNumber(c) && n == 3600 * Value(a) + 60 * Value(b) + Value(c)
    ensures Parsed(Hms(a, b, c)) == WithinU64(n)
  {
    assert Hms(a, b, c) != [];
    hide Parsed, Hms, Written;
    HmsIsWritten(a, b, c, n);
    ParseIsExact([Group(a, Hours), Group(b, Minutes), Group(c, Seconds)], []);
  }

  lemma DecimalIsNumber(n: nat)
    ensures IsNumber(Decimal(n)) && Value(Decimal(n)) == n
  {
  }

  /** Hours, minutes and seconds come back as written. */
  lemma {:induction false} RoundTrip(h: nat, m: nat, s: nat)
    ensures Parsed(Hms(Decimal(h), Decimal(m), Decimal(s))) == WithinU64(3600 * h + 60 * m + s)
  {
    hide Parsed, Hms, Decimal, IsNumber, Value;
    DecimalIsNumber(h);
    DecimalIsNumber(m);
    DecimalIsNumber(s);
    ParseHms(Decimal(h), Decimal(m), Decimal(s), 3600 * h + 60 * m + s);
  }

  // ---- nothing else is accepted ----

  /** What the loop accepts is a written time. */
  lemma {:induction false} ScanSound(s: string, total: nat, pending: string) returns (groups: seq<Group>, last: string)
    requires AllDigits(pending) && Scan(s, total, pending).Some?
    ensures ValidGroups(groups, last) && Written(groups, last) == pending + s
    ensures Scan(s, total, pending).value == total + Sum(groups, last)
    decreases |s|
  {
    hide Value, Amount;
    if s == [] {
      groups, last := [], pending;
    } else if IsDigit(s[0]) {
      groups, last := ScanSound(s[1..], total, pending + [s[0]]);
      assert pending + [s[0]] + s[1..] == pending + s;
    } else {
      var unit := UnitOf(s[0]).value;
      var more;
      more, last := ScanSound(s[1..], total + Amount(unit, Value(pending)), []);
      groups := [Group(pending, unit)] + more;
      assert groups[1..] == more;
      assert pending + [s[0]] + ([] + s[1..]) == pending + s;
    }
  }

  ghost predicate IsWritten(v: string, n: nat) {
    exists groups, last :: ValidGroups(groups, last) && Written(groups, last) == v && Sum(groups, last) == n
  }

  /** The leading plus sign the integer parser lets through: "+90" and "+90s", but not "+1m". */
  ghost predicate IsSigned(v: string, n: nat) {
    exists digits :: IsNumber(digits) && Value(digits) == n && (v == "+" + digits || v == "+" + digits + "s")
  }

  lemma SignedParses(v: string, n: nat)
    requires IsSigned(v, n) && n <= MAX_U64
    ensures v != [] && !IsWhite(v[0]) && !IsWhite(v[|v| - 1])
    ensures ParseUnsigned(v, MAX_U64) == Some(n)
            || (ParseUnsigned(v, MAX_U64).None? && ParseUnsigned(StripS(v), MAX_U64) == Some(n))
  {
    var digits :| IsNumber(digits) && Value(digits) == n && (v == "+" + digits || v == "+" + digits + "s");
    assert IsDigit(digits[|digits| - 1]);
    if v == "+" + digits {
      assert v[1..] == digits;
    } else {
      assert StripS(v) == "+" + digits && ("+" + digits)[1..] == digits;
      assert !IsDigit(v[1..][|digits|]);
    }
  }

  lemma PlusIsRefused(v: string)
    requires v != [] && v[0] == '+'
    ensures Scan(v, 0, []).None?
  {
  }

  lemma PlusNumber(v: string)
    requires v != [] && v[0] == '+' && ParseUnsigned(v, MAX_U64).Some?
    ensures IsNumber(v[1..]) && Value(v[1..]) == ParseUnsigned(v, MAX_U64).value && v == "+" + v[1..]
  {
    hide Value;
  }

  lemma {:induction false} ParsesSigned(v: string)
    requires v != [] && v[0] == '+'
    ensures ParseUnsigned(v, MAX_U64).Some? ==> IsSigned(v, ParseUnsigned(v, MAX_U64).value)
    ensures ParseUnsigned(StripS(v), MAX_U64).Some? ==> IsSigned(v, ParseUnsigned(StripS(v), MAX_U64).value)
    ensures Scan(v, 0, []).None?
  {
    PlusIsRefused(v);
    assert ParseUnsigned([], MAX_U64).None?;
    hide Value, Scan, IsNumber, ParseUnsigned;
    if ParseUnsigned(v, MAX_U64).Some? {
      PlusNumber(v);
    }
    var t := StripS(v);
    if t != v && t != [] && ParseUnsigned(t, MAX_U64).Some? {
      PlusNumber(t);
      assert v == "+" + t[1..] + "s";
    }
  }

  lemma AcceptsUnsigned(v: string, n: nat)
    requires v != [] && v[0] != '+'
    ensures ParsedTrimmed(v) == Some(n) <==> n <= MAX_U64 && IsWritten(v, n)
  {
    ParseIsScan(v);
    if Scan(v, 0, []) == Some(n) {
      var groups, last := ScanSound(v, 0, []);
      assert [] + v == v;
      assert IsWritten(v, n);
      ScanBound(v, 0, []);
    }
    if n <= MAX_U64 && IsWritten(v, n) {
      var groups, last :| ValidGroups(groups, last) && Written(groups, last) == v && Sum(groups, last) == n;
      ScanGroups(groups, last, 0);
    }
  }

  lemma AcceptsSigned(v: string, n: nat)
    requires v != [] && v[0] == '+'
    ensures ParsedTrimmed(v) == Some(n) <==> n <= MAX_U64 && IsSigned(v, n)
    ensures !IsWritten(v, n)
  {
    ParsesSigned(v);
    if n <= MAX_U64 && IsSigned(v, n) {
      SignedParses(v, n);
    }
    if IsWritten(v, n) {
      var groups, last :| ValidGroups(groups, last) && Written(groups, last) == v && Sum(groups, last) == n;
      WrittenEnds(groups, last);
    }
  }

  /** The parser accepts exactly the written times of at most u64, and a signed number of seconds. */
  lemma AcceptsIff(value: string, n: nat)
    ensures Parsed(value) == Some(n)
            <==> Trimmed(value) != [] && n <= MAX_U64 && (IsWritten(Trimmed(value), n) || IsSigned(Trimmed(value), n))
  {
    var v := Trimmed(value);
    if v != [] {
      if v[0] == '+' {
        AcceptsSigned(v, n);
      } else {
        AcceptsUnsigned(v, n);
      }
    }
  }

  lemma {:induction false} ScanBound(s: string, total: nat, pending: string)
    requires AllDigits(pending)
    ensures Scan(s, total, pending).Some? ==> Scan(s, total, pending).value <= MAX_U64
    decreases |s|
  {
    if s != [] {
      if IsDigit(s[0]) {
        ScanBound(s[1..], total, pending + [s[0]]);
      } else if UnitOf(s[0]).Some? {
        ScanBound(s[1..], total + Amount(UnitOf(s[0]).value, Value(pending)), []);
      }
    }
  }

  /** "+90" and "+90s" are ninety seconds. */
  lemma {:induction false} PlusNinety()
    ensures Parsed("+90") == Some(90) && Parsed("+90s") == Some(90)
  {
    assert "90"[..1] == "9" && "9"[..0] == "";
    assert IsNumber("90") && Value("90") == 90;
    assert "+90" == "+" + "90" && "+90s" == "+" + "90" + "s";
    assert IsSigned("+90", 90) && IsSigned("+90s", 90);
    SignedParses("+90", 90);
    SignedParses("+90s", 90);
    hide Parsed, Value;
    TrimmedIs("+90");
    TrimmedIs("+90s");
    AcceptsIff("+90", 90);
    AcceptsIff("+90s", 90);
  }
}
