// Byte ranges of a download: the parse of the `Range` header (src/fs/route.rs), as in sections 14.1.2
// and 14.2 of RFC 9110, and the bytes that the engine then streams (src/fs/mod.rs).
module ByteRange {
  import opened Keys
  import opened Wrappers

  const U64_MAX: nat := 0xFFFF_FFFF_FFFF_FFFF

  datatype Outcome = Full | Ranged(start: nat, endInclusive: nat) | Unsatisfiable

  function Min(a: nat, b: nat): nat { if a <= b then a else b }

  // ---- numbers ----

  predicate IsDigit(c: char) { '0' <= c <= '9' }

  function Digit(c: char): nat
    requires IsDigit(c)
  {
    c as int - '0' as int
  }

  predicate AllDigits(s: string) { forall i :: 0 <= i < |s| ==> IsDigit(s[i]) }

  function Value(s: string): nat
    requires AllDigits(s)
  {
    if s == [] then 0 else Value(s[..|s| - 1]) * 10 + Digit(s[|s| - 1])
  }

  /** An unsigned 64-bit number; one leading plus sign is let through. */
  function ParseU64(s: string): Option<nat> {
    var digits := if s != [] && s[0] == '+' then s[1..] else s;
    if digits == [] || !AllDigits(digits) || Value(digits) > U64_MAX then None else Some(Value(digits))
  }

  function Print(n: nat): string {
    (if n < 10 then "" else Print(n / 10)) + [('0' as int + n % 10) as char]
  }

  lemma {:induction false} PrintIsDigits(n: nat)
    ensures Print(n) != [] && AllDigits(Print(n)) && Value(Print(n)) == n
  {
    var s := Print(n);
    var front := s[..|s| - 1];
    if n < 10 {
      assert front == [];
    } else {
      PrintIsDigits(n / 10);
      assert front == Print(n / 10);
    }
  }

  lemma PrintParses(n: nat)
    requires n <= U64_MAX
    ensures ParseU64(Print(n)) == Some(n) && ParseU64("+" + Print(n)) == Some(n)
    ensures '-' !in Print(n) && ',' !in Print(n) && Print(n) != []
  {
    PrintIsDigits(n);
    DigitsParse(Print(n));
  }

  lemma DigitsParse(s: string)
    requires s != [] && AllDigits(s) && Value(s) <= U64_MAX
    ensures ParseU64(s) == Some(Value(s)) && ParseU64("+" + s) == Some(Value(s))
    ensures '-' !in s && ',' !in s
  {
    assert ("+" + s)[1..] == s;
    assert IsDigit(s[0]);
    assert forall c :: c in s ==> IsDigit(c);
  }

  // ---- the header ----

  /** Unicode white space, which the header is trimmed of. */
  predicate IsSpace(c: char) {
    var n := c as int;
    9 <= n <= 13 || n == 32 || n == 0x85 || n == 0xA0 || n == 0x1680 || 0x2000 <= n <= 0x200A
    || n == 0x2028 || n == 0x2029 || n == 0x202F || n == 0x205F || n == 0x3000
  }

  function TrimStart(s: string): string {
    if s != [] && IsSpace(s[0]) then TrimStart(s[1..]) else s
  }

  function TrimEnd(s: string): string {
    if s != [] && IsSpace(s[|s| - 1]) then TrimEnd(s[..|s| - 1]) else s
  }

  function Trim(s: string): string { TrimEnd(TrimStart(s)) }

  const UNIT := "bytes="

  /** The range that the header asks of a representation of `total` bytes; every odd header asks for all of it. */
  function ParseRange(header: Option<string>, total: nat): Outcome {
    if header == None || !StartsWith(Trim(header.value), UNIT) then Full
    else
      var spec := Trim(header.value)[|UNIT|..];
      if ',' in spec then Full
      else
        match SplitAt(spec, '-')
        case None => Full
        case Some((first, last)) => Bounds(first, last, total)
  }

  /** The outcome for the text on both sides of the dash. */
  function Bounds(first: string, last: string, total: nat): Outcome {
    if total == 0 then Unsatisfiable
    else if first == [] then
      match ParseU64(last)
      case None => Full
      case Some(n) =>
        if n == 0 then Full else Ranged(total - Min(n, total), total - 1)
    else
      match ParseU64(first)
      case None => Full
      case Some(start) =>
        if start >= total then Unsatisfiable
        else
          match (if last == [] then Some(total - 1) else ParseU64(last))
          case None => Full
          case Some(e) =>
            var end := Min(e, total - 1);
            if end < start then Full else Ranged(start, end)
  }

  /** Every range that is served lies in the representation. */
  lemma RangedInBounds(header: Option<string>, total: nat)
    ensures var out := ParseRange(header, total);
            out.Ranged? ==> out.start <= out.endInclusive < total
  {
  }

  // ---- printed headers ----

  lemma {:induction false} TrimStartBare(pad: string, s: string)
    requires (forall c :: c in pad ==> IsSpace(c)) && s != [] && !IsSpace(s[0])
    ensures TrimStart(pad + s) == s
  {
    if pad == [] {
      assert pad + s == s;
    } else {
      assert (pad + s)[0] == pad[0] && (pad + s)[1..] == pad[1..] + s;
      TrimStartBare(pad[1..], s);
    }
  }

  lemma {:induction false} TrimEndBare(s: string, pad: string)
    requires (forall c :: c in pad ==> IsSpace(c)) && s != [] && !IsSpace(s[|s| - 1])
    ensures TrimEnd(s + pad) == s
  {
    if pad == [] {
      assert s + pad == s;
    } else {
      var all := s + pad;
      assert all[|all| - 1] == pad[|pad| - 1] && all[..|all| - 1] == s + pad[..|pad| - 1];
      TrimEndBare(s, pad[..|pad| - 1]);
    }
  }

  /** White space around a header does not matter. */
  lemma TrimsTo(before: string, s: string, after: string)
    requires forall c :: c in before + after ==> IsSpace(c)
    requires s != [] && !IsSpace(s[0]) && !IsSpace(s[|s| - 1])
    ensures Trim(before + s + after) == s
  {
    assert forall c :: c in before ==> c in before + after;
    assert forall c :: c in after ==> c in before + after;
    assert before + s + after == before + (s + after);
    TrimStartBare(before, s + after);
    TrimEndBare(s, after);
  }

  /** A header that names one range, with any white space around it. */
  function HeaderOf(before: string, first: string, last: string, after: string): Option<string> {
    Some(before + (UNIT + (first + ("-" + last))) + after)
  }

  predicate Plain(s: string) {
    forall c :: c in s ==> IsDigit(c) || c == '+'
  }

  lemma HeaderBounds(before: string, first: string, last: string, after: string, total: nat)
    requires forall c :: c in before + after ==> IsSpace(c)
    requires Plain(first) && Plain(last)
    ensures ParseRange(HeaderOf(before, first, last, after), total) == Bounds(first, last, total)
  {
    var spec := first + ("-" + last);
    var h := UNIT + spec;
    assert !IsSpace(h[|h| - 1]) by {
      if last == [] {
        assert h[|h| - 1] == '-';
      } else {
        assert h[|h| - 1] == last[|last| - 1] && last[|last| - 1] in last;
      }
    }
    TrimsTo(before, h, after);
    assert h[|UNIT|..] == spec && h[..|UNIT|] == UNIT;
    assert ',' !in spec;
    assert "-" == ['-'];
    SplitAtFirst(first, '-', last);
  }

  lemma PrintPlain(n: nat)
    ensures Plain(Print(n))
  {
    PrintIsDigits(n);
  }

  /**
   * A printed range `first-last` over `total` bytes: past the end it is unsatisfiable, in reverse
   * order it asks for everything, and else it is served up to the end of the representation.
   */
  lemma PrintedRange(before: string, first: nat, last: nat, after: string, total: nat)
    requires (forall c :: c in before + after ==> IsSpace(c)) && first <= U64_MAX && last <= U64_MAX
    ensures ParseRange(HeaderOf(before, Print(first), Print(last), after), total) ==
            if first >= total then Unsatisfiable
            else if last < first then Full
            else Ranged(first, Min(last, total - 1))
  {
    PrintPlain(first);
    PrintPlain(last);
    PrintParses(first);
    PrintParses(last);
    HeaderBounds(before, Print(first), Print(last), after, total);
  }

  /** Printing a range of the representation and parsing it gives the range back. */
  lemma PrintParseRoundTrip(start: nat, end: nat, total: nat)
    requires start <= end < total <= U64_MAX
    ensures ParseRange(Some("bytes=" + (Print(start) + ("-" + Print(end)))), total) == Ranged(start, end)
  {
    PrintedRange("", start, end, "", total);
    var h := "bytes=" + (Print(start) + ("-" + Print(end)));
    assert "" + h + "" == h;
  }

  /** A suffix of `n` bytes is the last `n` bytes, or all of them when there are fewer. */
  lemma SuffixRange(before: string, n: nat, after: string, total: nat)
    requires (forall c :: c in before + after ==> IsSpace(c)) && n <= U64_MAX
    ensures var out := ParseRange(HeaderOf(before, "", Print(n), after), total);
            if total == 0 then out == Unsatisfiable
            else if n == 0 then out == Full
            else out.Ranged? && out.endInclusive == total - 1 && out.endInclusive - out.start + 1 == Min(n, total)
  {
    PrintPlain(n);
    PrintParses(n);
    HeaderBounds(before, "", Print(n), after, total);
  }

  /** An open range runs to the end. */
  lemma OpenRange(before: string, first: nat, after: string, total: nat)
    requires (forall c :: c in before + after ==> IsSpace(c)) && first <= U64_MAX
    ensures ParseRange(HeaderOf(before, Print(first), "", after), total) ==
            if first >= total then Unsatisfiable else Ranged(first, total - 1)
  {
    PrintPlain(first);
    PrintParses(first);
    HeaderBounds(before, Print(first), "", after, total);
  }

  /**
   * Bounds in reverse order are meant to ask for the whole representation; they do exactly when the
   * first one lies in it. Past the end the header is refused before its order is looked at.
   */
  lemma ReversedIsFullIff(first: nat, last: nat, total: nat)
    requires last < first <= U64_MAX
    ensures ParseRange(HeaderOf("", Print(first), Print(last), ""), total) == Full <==> first < total
  {
    PrintedRange("", first, last, "", total);
  }

  lemma BoundsByValue(first: string, last: string, first2: string, last2: string, total: nat)
    requires first != [] && first2 != [] && last != [] && last2 != []
    requires ParseU64(first) == ParseU64(first2) && ParseU64(last) == ParseU64(last2)
    ensures Bounds(first, last, total) == Bounds(first2, last2, total)
  {
  }

  lemma PlusPlain(n: nat)
    ensures Plain("+" + Print(n))
  {
    PrintPlain(n);
  }

  /** The grammar of the header has no sign, but a leading plus is read as if it were not there. */
  lemma PlusIsIgnored(start: nat, end: nat, total: nat)
    requires start <= U64_MAX && end <= U64_MAX
    ensures ParseRange(HeaderOf("", "+" + Print(start), "+" + Print(end), ""), total) ==
            ParseRange(HeaderOf("", Print(start), Print(end), ""), total)
  {
    var s, e := Print(start), Print(end);
    PrintPlain(start);
    PrintPlain(end);
    PlusPlain(start);
    PlusPlain(end);
    PrintParses(start);
    PrintParses(end);
    HeaderBounds("", "+" + s, "+" + e, "", total);
    HeaderBounds("", s, e, "", total);
    BoundsByValue("+" + s, "+" + e, s, e, total);
  }

  /** The header, trimmed, is a single range in bytes. */
  predicate OneRange(h: string, first: string, last: string) {
    Trim(h) == UNIT + (first + ("-" + last)) && '-' !in first && ',' !in first && ',' !in last
  }

  /** Only a header that names one range in bytes asks for anything but the whole; its two sides decide. */
  lemma UsableHeader(header: Option<string>, total: nat)
    ensures ParseRange(header, total) == Full
            || (header.Some? && exists first, last ::
                  OneRange(header.value, first, last) && ParseRange(header, total) == Bounds(first, last, total))
  {
    if ParseRange(header, total) != Full {
      var h := Trim(header.value);
      var spec := h[|UNIT|..];
      SplitAtJoins(spec, '-');
      var (first, last) := SplitAt(spec, '-').value;
      assert "-" == ['-'];
      assert h == UNIT + spec && spec == first + ("-" + last);
      assert (forall c :: c in first ==> c in spec) && (forall c :: c in last ==> c in spec);
      assert OneRange(header.value, first, last);
    }
  }

  // ---- what is streamed ----

  /** The bounds that the engine clamps to the size of the record; `end` is exclusive. */
  function Clamp(start: nat, end: nat, size: nat): (int, int) {
    var s := Min(start, size);
    var e := Min(end, size);
    (s, if e >= s then e else s)
  }

  function Streamed<T>(object_: seq<T>, start: nat, end: nat): (b: seq<T>)
  {
    var (s, e) := Clamp(start, end, |object_|);
    object_[s..e]
  }

  /** The end that the `Content-Range` header states, from what is streamed. */
  function StatedEnd(start: nat, streamed: nat): nat {
    start + if streamed > 0 then streamed - 1 else 0
  }

  /** A parsed range streams exactly its bytes, and the header states exactly its end; nothing overflows. */
  lemma RangedStreams<T>(header: Option<string>, object_: seq<T>)
    requires |object_| <= U64_MAX && ParseRange(header, |object_|).Ranged?
    ensures var out := ParseRange(header, |object_|);
            var body := Streamed(object_, out.start, out.endInclusive + 1);
            && out.endInclusive + 1 <= U64_MAX
            && |body| == out.endInclusive - out.start + 1
            && (forall i :: 0 <= i < |body| ==> body[i] == object_[out.start + i])
            && StatedEnd(out.start, |body|) == out.endInclusive
  {
    RangedInBounds(header, |object_|);
  }
}
