/** Byte-range streaming of an admitted media file (sections 14.1.2, 14.4 and 15.5.17 of RFC 9110). */
module Ranges {
  import opened Wrappers
  import opened Numbers
  import opened Text

  const MAX_IMAGE_BYTES: nat := 64 * 1024 * 1024
  const MAX_MEDIA_RESPONSE_BYTES: nat := 8 * 1024 * 1024

  datatype Kind = Image | Video | Audio
  datatype Verb = Get | Head | OtherVerb
  datatype ContentRange = NoContentRange | Bytes(first: nat, last: nat, total: nat) | Unsatisfied(total: nat)
  datatype Response = Response(status: nat, contentLength: Option<nat>, contentRange: ContentRange, body: seq<bv8>)

  /** What `admit` establishes about a file: it is not empty, its length is a u64, an image is at most 64 MiB. */
  predicate Admissible(total: nat, kind: Kind) {
    0 < total <= MAX_U64 && (kind.Image? ==> total <= MAX_IMAGE_BYTES)
  }

  // ---- parsing ----

  /** `split_once('-')`. */
  function SplitDash(s: string): Option<(string, string)> {
    if s == [] then None
    else if s[0] == '-' then Some(([], s[1..]))
    else
      var rest := SplitDash(s[1..]);
      if rest.None? then None else Some(([s[0]] + rest.value.0, rest.value.1))
  }

  /** The two halves of the value after the prefix, as `parse_range` reads them. */
  function ParseHalves(start: string, end: string, total: nat): (r: Option<(nat, nat)>)
    requires total > 0
    ensures r.Some? ==> r.value.0 <= r.value.1 < total
  {
    if start == [] then
      var suffix := ParseUnsigned(end, MAX_U64);
      if suffix.None? || suffix.value == 0 then None
      else Some((if suffix.value < total then total - suffix.value else 0, total - 1))
    else
      var first := ParseUnsigned(start, MAX_U64);
      if first.None? || first.value >= total then None
      else
        var last := if end == [] then Some(total - 1) else ParseUnsigned(end, MAX_U64);
        if last.None? then None
        else
          var end := if last.value < total - 1 then last.value else total - 1;
          if end < first.value then None else Some((first.value, end))
  }

  /** `parse_range`; None stands for the 416 answer. */
  function ParseRange(value: string, total: nat): (r: Option<(nat, nat)>)
    ensures r.Some? ==> r.value.0 <= r.value.1 < total
  {
    if !StartsWith(value, "bytes=") then None
    else
      var v := value[6..];
      if ',' in v || total == 0 then None
      else
        var parts := SplitDash(v);
        if parts.None? then None else ParseHalves(parts.value.0, parts.value.1, total)
  }

  /** A range specifier of section 14.1.2, as its two strings of digits: "first-", "first-last" or "-suffix".
      Leading zeros are allowed. */
  predicate IsSpec(first: string, last: string) {
    AllDigits(first) && AllDigits(last) && (first != [] || last != [])
  }

  function Written(first: string, last: string): string { "bytes=" + first + "-" + last }

  /** The bytes a specifier selects from a representation of `total` bytes, if it is satisfiable. */
  function Selects(first: string, last: string, total: nat): Option<(nat, nat)>
    requires IsSpec(first, last)
  {
    if first == [] then
      var n := Value(last);
      if n > 0 && total > 0 then Some((if n < total then total - n else 0, total - 1)) else None
    else
      var a := Value(first);
      if a >= total then None
      else if last == [] then Some((a, total - 1))
      else if Value(last) < a then None
      else Some((a, if Value(last) < total then Value(last) else total - 1))
  }

  /** The numbers a specifier writes are u64. */
  predicate InU64(first: string, last: string)
    requires IsSpec(first, last)
  {
    Value(first) <= MAX_U64 && Value(last) <= MAX_U64
  }

  lemma {:induction false} SplitDashAt(s: string, t: string)
    requires '-' !in s
    ensures SplitDash(s + "-" + t) == Some((s, t))
  {
    if s == [] {
      assert s + "-" + t == "-" + t;
    } else {
      assert (s + "-" + t)[1..] == s[1..] + "-" + t;
      assert (s + "-" + t)[0] == s[0];
      SplitDashAt(s[1..], t);
      assert [s[0]] + s[1..] == s;
    }
  }

  lemma {:induction false} SplitDashSound(s: string)
    ensures var p := SplitDash(s);
            p.Some? ==> s == p.value.0 + "-" + p.value.1 && '-' !in p.value.0
  {
    if s != [] && s[0] != '-' {
      SplitDashSound(s[1..]);
      assert s == [s[0]] + s[1..];
    }
  }

  /** What the integer parser reads: nothing but digits, after at most one plus sign. */
  function Unsigned(s: string): string { if s != [] && s[0] == '+' then s[1..] else s }

  predicate Readable(s: string) { s == [] || (Unsigned(s) != [] && AllDigits(Unsigned(s))) }

  lemma ParsedNumber(s: string)
    requires Readable(s) && s != []
    ensures ParseUnsigned(s, MAX_U64) == if Value(Unsigned(s)) <= MAX_U64 then Some(Value(Unsigned(s))) else None
  {
  }

  lemma HalvesAreExact(start: string, end: string, total: nat)
    requires 0 < total <= MAX_U64 && Readable(start) && Readable(end) && (start != [] || end != [])
    ensures IsSpec(Unsigned(start), Unsigned(end))
    ensures ParseHalves(start, end, total)
            == if InU64(Unsigned(start), Unsigned(end)) then Selects(Unsigned(start), Unsigned(end), total) else None
  {
    if start != [] { ParsedNumber(start); }
    if end != [] { ParsedNumber(end); }
    hide Value, ParseUnsigned;
    assert Value([]) == 0 by { ValueOfNothing(); }
  }

  lemma ValueOfNothing()
    ensures Value([]) == 0
  {
  }

  lemma HalvesAreReadable(start: string, end: string, total: nat)
    requires total > 0 && ParseHalves(start, end, total).Some?
    ensures Readable(start) && Readable(end) && (start != [] || end != [])
  {
  }

  lemma ParseOfWritten(start: string, end: string, total: nat)
    requires total > 0 && '-' !in start && ',' !in start && ',' !in end
    ensures ParseRange(Written(start, end), total) == ParseHalves(start, end, total)
  {
    hide ParseHalves;
    SplitDashAt(start, end);
    assert Written(start, end)[6..] == start + "-" + end;
  }

  lemma ReadableIsPlain(s: string)
    requires Readable(s)
    ensures '-' !in s && ',' !in s
  {
    assert forall i :: 0 <= i < |s| ==> s[i] == '+' || IsDigit(s[i]) by {
      assert forall i :: 1 <= i < |s| && s[0] == '+' ==> s[i] == Unsigned(s)[i - 1];
    }
  }

  lemma DigitsAreReadable(s: string)
    requires AllDigits(s)
    ensures Readable(s) && Unsigned(s) == s
  {
    if s != [] { assert IsDigit(s[0]); }
  }

  /** A written specifier, leading zeros included, is answered with exactly the bytes it selects when its numbers
      are u64, and with 416 otherwise. */
  lemma ParseIsExact(first: string, last: string, total: nat)
    requires 0 < total <= MAX_U64 && IsSpec(first, last)
    ensures ParseRange(Written(first, last), total) == if InU64(first, last) then Selects(first, last, total) else None
  {
    DigitsAreReadable(first);
    DigitsAreReadable(last);
    ReadableIsPlain(first);
    ReadableIsPlain(last);
    hide ParseHalves, ParseRange, Selects, Written;
    ParseOfWritten(first, last, total);
    HalvesAreExact(first, last, total);
  }

  /** So on written specifiers the parser disagrees with section 14.1.2 exactly when one is satisfiable and writes a
      number beyond u64. */
  lemma ParseAgreesIff(first: string, last: string, total: nat)
    requires 0 < total <= MAX_U64 && IsSpec(first, last)
    ensures ParseRange(Written(first, last), total) == Selects(first, last, total)
            <==> InU64(first, last) || Selects(first, last, total).None?
  {
    hide ParseRange, Selects;
    ParseIsExact(first, last, total);
  }

  ghost predicate IsAccepted(value: string, start: string, end: string, total: nat, r: (nat, nat)) {
    && value == Written(start, end) && Readable(start) && Readable(end) && (start != [] || end != [])
    && IsSpec(Unsigned(start), Unsigned(end)) && InU64(Unsigned(start), Unsigned(end))
    && Selects(Unsigned(start), Unsigned(end), total) == Some(r)
  }

  /** What is accepted beyond written specifiers: each number may carry one plus sign. Nothing else is: no second
      range, no other unit, no capital letter, no space. */
  lemma AcceptsIff(value: string, total: nat, r: (nat, nat))
    requires 0 < total <= MAX_U64
    ensures ParseRange(value, total) == Some(r) <==> exists start, end :: IsAccepted(value, start, end, total, r)
  {
    if ParseRange(value, total) == Some(r) {
      var v := value[6..];
      SplitDashSound(v);
      var (start, end) := SplitDash(v).value;
      assert value == Written(start, end);
      HalvesAreReadable(start, end, total);
      HalvesAreExact(start, end, total);
      assert IsAccepted(value, start, end, total, r);
    }
    if exists start, end :: IsAccepted(value, start, end, total, r) {
      var start, end :| IsAccepted(value, start, end, total, r);
      ReadableIsPlain(start);
      ReadableIsPlain(end);
      ParseOfWritten(start, end, total);
      HalvesAreExact(start, end, total);
    }
  }

  /** "bytes=0-18446744073709551616" and the like: satisfiable by section 14.1.2, refused by the parser. */
  lemma BeyondU64IsRefused(total: nat)
    requires 0 < total <= MAX_U64
    ensures var last := Decimal(MAX_U64 + 1);
            IsSpec("0", last) && Selects("0", last, total) == Some((0, total - 1))
            && ParseRange(Written("0", last), total) == None
  {
    var last := Decimal(MAX_U64 + 1);
    assert Value("0") == 0 by { assert "0"[..0] == []; }
    hide Decimal;
    ParseIsExact("0", last, total);
  }

  /** "bytes=+5-" is accepted as "bytes=5-". */
  lemma PlusIsAccepted(total: nat)
    requires 5 < total <= MAX_U64
    ensures ParseRange(Written("+5", ""), total) == Some((5, total - 1))
  {
    assert "+5"[1..] == "5" && Value("5") == 5 by { assert "5"[..0] == []; }
    assert IsAccepted(Written("+5", ""), "+5", "", total, (5, total - 1));
    AcceptsIff(Written("+5", ""), total, (5, total - 1));
  }

  // ---- serving ----

  /** `saturating_add` on u64. */
  function SaturatingAdd(a: nat, b: nat): nat { if a + b > MAX_U64 then MAX_U64 else a + b }

  /** `cap_range`. */
  function CapRange(start: nat, end: nat): (nat, nat) {
    var maxEnd := SaturatingAdd(start, MAX_MEDIA_RESPONSE_BYTES - 1);
    (start, if end < maxEnd then end else maxEnd)
  }

  /** The range `serve_content` answers with, before the cap. */
  function Selection(range: Option<string>, kind: Kind, total: nat): Option<(nat, nat)>
    requires total > 0
  {
    if range.Some? then ParseRange(range.value, total)
    else if kind.Image? then Some((0, total - 1))
    else Some((0, if total <= MAX_MEDIA_RESPONSE_BYTES then total - 1 else MAX_MEDIA_RESPONSE_BYTES - 1))
  }

  /** A capped range stays inside the file, is not empty, holds at most 8 MiB, and its arithmetic stays in u64. */
  lemma CapStaysInside(start: nat, end: nat, total: nat)
    requires start <= end < total <= MAX_U64
    ensures var (a, b) := CapRange(start, end);
            && a == start <= b <= end && b + 1 <= MAX_U64
            && 1 <= b - a + 1 <= MAX_MEDIA_RESPONSE_BYTES
            && (b < end ==> b - a + 1 == MAX_MEDIA_RESPONSE_BYTES)
  {
  }

  /** `serve_content` for a file that holds `content` and was admitted with `total` bytes. */
  function Served(content: seq<bv8>, total: nat, kind: Kind, verb: Verb, range: Option<string>): Response
    requires Admissible(total, kind)
  {
    if verb.OtherVerb? then Response(405, None, NoContentRange, [])
    else
      var selection := Selection(range, kind, total);
      if selection.None? then Response(416, None, Unsatisfied(total), [])
      else
        var (a, b) := CapRange(selection.value.0, selection.value.1);
        var partial := range.Some? || b + 1 < total;
        if verb.Get? && b + 1 > |content| then Response(500, None, NoContentRange, [])
        else
          Response(if partial then 206 else 200, Some(b - a + 1),
                   if partial then Bytes(a, b, total) else NoContentRange,
                   if verb.Get? && a <= b + 1 then content[a..b + 1] else [])
  }

  /** The admitted file behind its lock. */
  class AdmittedMedia {
    const content: seq<bv8>
    const total: nat
    const kind: Kind
    var position: nat

    constructor (content: seq<bv8>, kind: Kind)
      ensures this.content == content && total == |content| && this.kind == kind && position == 0
    {
      this.content, this.total, this.kind := content, |content|, kind;
      position := 0;
    }

    /** `read_range`: seek, then read exactly, wherever the file stood before. */
    method ReadRange(start: nat, length: nat) returns (body: Option<seq<bv8>>)
      modifies this
      ensures body == if start + length <= |content| then Some(content[start..start + length]) else None
      ensures body.Some? ==> position == start + length
    {
      position := start;
      if position + length > |content| {
        return None;
      }
      body := Some(content[position..position + length]);
      position := position + length;
    }

    method ServeContent(verb: Verb, range: Option<string>) returns (r: Response)
      requires Admissible(total, kind)
      modifies this
      ensures r == Served(content, total, kind, verb, range)
    {
      if verb.OtherVerb? {
        return Response(405, None, NoContentRange, []);
      }
      var selection: (nat, nat);
      if range.Some? {
        var parsed := ParseRange(range.value, total);
        if parsed.None? {
          return Response(416, None, Unsatisfied(total), []);
        }
        selection := parsed.value;
      } else if kind.Image? {
        selection := (0, total - 1);
      } else {
        selection := (0, if total - 1 < MAX_MEDIA_RESPONSE_BYTES - 1 then total - 1 else MAX_MEDIA_RESPONSE_BYTES - 1);
      }
      CapStaysInside(selection.0, selection.1, total);
      var capped := CapRange(selection.0, selection.1);
      var partial := range.Some? || capped.1 + 1 < total;
      var length := capped.1 - capped.0 + 1;
      var body: seq<bv8> := [];
      if verb.Get? {
        var read := ReadRange(capped.0, length);
        if read.None? {
          return Response(500, None, NoContentRange, []);
        }
        body := read.value;
      }
      r := Response(if partial then 206 else 200, Some(length),
                    if partial then Bytes(capped.0, capped.1, total) else NoContentRange, body);
    }
  }

  /** What an answer to GET holds while the file is as admitted: 206 carries exactly the bytes its
      Content-Range names, 200 the whole file, neither more than 8 MiB; everything else carries nothing. */
  lemma AnswersAreExact(content: seq<bv8>, kind: Kind, range: Option<string>)
    requires Admissible(|content|, kind)
    ensures var r := Served(content, |content|, kind, Get, range);
            match r.status
            case 206 =>
              && r.contentRange.Bytes? && r.contentRange.total == |content|
              && r.contentRange.first <= r.contentRange.last < |content|
              && r.body == content[r.contentRange.first..r.contentRange.last + 1]
              && r.contentLength == Some(|r.body|) && 1 <= |r.body| <= MAX_MEDIA_RESPONSE_BYTES
            case 200 =>
              && range.None? && r.body == content && r.contentLength == Some(|content|)
              && r.contentRange == NoContentRange && |content| <= MAX_MEDIA_RESPONSE_BYTES
            case _ =>
              r.status == 416 && range.Some? && ParseRange(range.value, |content|).None?
              && r.body == [] && r.contentRange == Unsatisfied(|content|)
    ensures var h := Served(content, |content|, kind, Head, range);
            h == Served(content, |content|, kind, Get, range).(body := [])
    ensures range.None? ==>
              (Served(content, |content|, kind, Get, range).status == 206 <==> |content| > MAX_MEDIA_RESPONSE_BYTES)
  {
    var selection := Selection(range, kind, |content|);
    if selection.Some? {
      CapStaysInside(selection.value.0, selection.value.1, |content|);
    }
  }

  /** The part of a selected range that one answer carries: from its start on, 8 MiB at most. */
  function Part(content: seq<bv8>, a: nat, b: nat): Response
    requires a <= b < |content|
  {
    var end := if b - a + 1 <= 8 * 1024 * 1024 then b else a + 8 * 1024 * 1024 - 1;
    Response(206, Some(end - a + 1), Bytes(a, end, |content|), content[a..end + 1])
  }

  lemma {:induction false} ServedOfParsed(content: seq<bv8>, kind: Kind, range: string)
    requires Admissible(|content|, kind)
    ensures Served(content, |content|, kind, Get, Some(range))
            == match ParseRange(range, |content|)
               case Some((a, b)) => Part(content, a, b)
               case None => Response(416, None, Unsatisfied(|content|), [])
  {
    if ParseRange(range, |content|).Some? {
      var (a, b) := ParseRange(range, |content|).value;
      hide ParseRange;
      CapStaysInside(a, b, |content|);
    }
  }

  /** The answer to a written range is the range asked for: of the bytes section 14.1.2 selects it carries those from
      the first on, 8 MiB of them at most; a range that is not satisfiable, or writes a number beyond u64, is answered
      with 416. */
  lemma {:induction false} AnswersWhatIsAsked(content: seq<bv8>, kind: Kind, first: string, last: string)
    requires Admissible(|content|, kind) && IsSpec(first, last)
    ensures var selected := Selects(first, last, |content|);
            && (selected.Some? ==> selected.value.0 <= selected.value.1 < |content|)
            && Served(content, |content|, kind, Get, Some(Written(first, last)))
               == if selected.Some? && InU64(first, last) then Part(content, selected.value.0, selected.value.1)
                  else Response(416, None, Unsatisfied(|content|), [])
  {
    ParseIsExact(first, last, |content|);
    SelectsInside(first, last, |content|);
    hide Written, ParseRange, Value, Served, Part, Selects;
    ServedOfParsed(content, kind, Written(first, last));
  }

  lemma SelectsInside(first: string, last: string, total: nat)
    requires IsSpec(first, last)
    ensures var r := Selects(first, last, total); r.Some? ==> r.value.0 <= r.value.1 < total
  {
  }

  /** Without a range a file of at most 8 MiB is answered whole and of any other come its first 8 MiB. Methods other
      than GET and HEAD are refused. */
  lemma {:induction false} AnswersWithoutRange(content: seq<bv8>, kind: Kind, range: Option<string>)
    requires Admissible(|content|, kind)
    ensures var r := Served(content, |content|, kind, Get, None);
            if |content| <= 8 * 1024 * 1024
            then r == Response(200, Some(|content|), NoContentRange, content)
            else
              var n := 8 * 1024 * 1024;
              r == Response(206, Some(n), Bytes(0, n - 1, |content|), content[..n])
    ensures Served(content, |content|, kind, OtherVerb, range) == Response(405, None, NoContentRange, [])
  {
  }

  // ---- reassembly ----

  function RequestFrom(pos: nat): Option<string> { Some(Written(Decimal(pos), [])) }

  function NextAfter(pos: nat, total: nat): nat {
    if pos + MAX_MEDIA_RESPONSE_BYTES < total then pos + MAX_MEDIA_RESPONSE_BYTES else total
  }

  /** One request of a client that has the first `pos` bytes. */
  lemma ChunkFrom(content: seq<bv8>, kind: Kind, pos: nat)
    requires Admissible(|content|, kind) && pos < |content|
    ensures var r := Served(content, |content|, kind, Get, RequestFrom(pos));
            && r.status == 206 && r.body == content[pos..NextAfter(pos, |content|)]
            && r.contentRange == Bytes(pos, NextAfter(pos, |content|) - 1, |content|)
  {
    ParseIsExact(Decimal(pos), [], |content|);
    CapStaysInside(pos, |content| - 1, |content|);
  }

  /** The client's loop: ask from where it stands until it has `total` bytes or is given nothing usable; what
      it gets and how often it asks. */
  function Fetched(ask: nat -> seq<bv8>, total: nat, pos: nat): (seq<bv8>, nat)
    requires pos <= total
    decreases total - pos
  {
    if pos == total then ([], 0)
    else if ask(pos) == [] || pos + |ask(pos)| > total then ([], 1)
    else
      var (rest, asked) := Fetched(ask, total, pos + |ask(pos)|);
      (ask(pos) + rest, asked + 1)
  }

  function CeilingOfChunks(n: nat): nat { (n + MAX_MEDIA_RESPONSE_BYTES - 1) / MAX_MEDIA_RESPONSE_BYTES }

  lemma {:induction false} FetchesTheRest(content: seq<bv8>, ask: nat -> seq<bv8>, pos: nat)
    requires pos <= |content|
    requires forall p :: 0 <= p < |content| ==> ask(p) == content[p..NextAfter(p, |content|)]
    ensures Fetched(ask, |content|, pos) == (content[pos..], CeilingOfChunks(|content| - pos))
    decreases |content| - pos
  {
    if pos < |content| {
      var next := NextAfter(pos, |content|);
      FetchesTheRest(content, ask, next);
      assert content[pos..next] + content[next..] == content[pos..];
    } else {
      assert content[pos..] == [];
    }
  }

  /** Asking "bytes=pos-" from 0 on ends after ceil(total / 8 MiB) requests with the file itself. */
  lemma {:induction false} Reassembles(content: seq<bv8>, kind: Kind, ask: nat -> seq<bv8>)
    requires Admissible(|content|, kind)
    requires forall p :: ask(p) == Served(content, |content|, kind, Get, RequestFrom(p)).body
    ensures Fetched(ask, |content|, 0) == (content, CeilingOfChunks(|content|))
  {
    hide Served, RequestFrom, Written, Fetched, CeilingOfChunks;
    forall p | 0 <= p < |content|
      ensures ask(p) == content[p..NextAfter(p, |content|)]
    {
      ChunkFrom(content, kind, p);
    }
    FetchesTheRest(content, ask, 0);
  }
}
