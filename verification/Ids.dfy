/** Node identifiers "zone.node" (id.go) and the decimal text they are made of. */
module Ids {
  /** A named string type. */
  datatype ID = ID(text: string)

  const MAX_UINT64: int := 0xFFFF_FFFF_FFFF_FFFF
  const MAX_INT64: int := 0x7FFF_FFFF_FFFF_FFFF

  predicate IsDigit(c: char) { '0' <= c <= '9' }

  function Digit(d: nat): (c: char)
    requires d < 10
    ensures IsDigit(c)
  {
    ('0' as int + d) as char
  }

  function DigitValue(c: char): nat
    requires IsDigit(c)
  {
    c as int - '0' as int
  }

  /** strconv.Itoa and %d on a natural number. */
  function Decimal(n: nat): (s: string)
    ensures s != [] && forall i :: 0 <= i < |s| ==> IsDigit(s[i])
  {
    if n < 10 then [Digit(n)] else Decimal(n / 10) + [Digit(n % 10)]
  }

  /** strconv.Itoa on a signed number. */
  function Itoa(i: int): string {
    if i < 0 then "-" + Decimal(-i) else Decimal(i)
  }

  /** strconv.ParseUint(s, 10, 64): a syntax error yields 0, a range error the largest uint64. */
  datatype Parsed = Parsed(value: nat, ok: bool)

  function ParseUint(s: string): Parsed {
    if s == [] then Parsed(0, false) else Scan(s, 0)
  }

  function Scan(s: string, acc: nat): Parsed {
    if s == [] then Parsed(acc, true)
    else if !IsDigit(s[0]) then Parsed(0, false)
    else
      var n := acc * 10 + DigitValue(s[0]);
      if n > MAX_UINT64 then Parsed(MAX_UINT64, false) else Scan(s[1..], n)
  }

  /** The position of the first dot, or the length when there is none. */
  function FirstDot(s: string): (i: nat)
    ensures i <= |s|
    ensures forall j :: 0 <= j < i ==> s[j] != '.'
    ensures i < |s| ==> s[i] == '.'
  {
    if s == [] || s[0] == '.' then 0 else 1 + FirstDot(s[1..])
  }

  predicate HasDot(s: string) { FirstDot(s) < |s| }

  /** Go's conversion of a uint64 to int. */
  function ToInt64(n: nat): int
    requires n <= MAX_UINT64
  {
    if n > MAX_INT64 then n - MAX_UINT64 - 1 else n
  }

  /** Go's negation in NewID: the least int64 is its own negation. */
  function Abs64(i: int): int {
    if i < 0 && i != -MAX_INT64 - 1 then -i else i
  }

  function NewID(zone: int, node: int): ID {
    ID(Itoa(Abs64(zone)) + "." + Itoa(Abs64(node)))
  }

  function ParsedOrZero(s: string): int {
    var p := ParseUint(s);
    if p.ok && p.value <= MAX_UINT64 then ToInt64(p.value) else 0
  }

  function Zone(id: ID): int {
    var s := id.text;
    if !HasDot(s) then 0 else ParsedOrZero(s[..FirstDot(s)])
  }

  function Node(id: ID): int {
    var s := id.text;
    if !HasDot(s) then ParsedOrZero(s)
    else
      var rest := s[FirstDot(s) + 1..];
      ParsedOrZero(rest[..FirstDot(rest)])
  }

  /** The identifiers a configuration uses: both parts fit their 16 bits of a ballot. */
  predicate Canonical(id: ID) {
    0 <= Zone(id) < 0x1_0000 && 0 <= Node(id) < 0x1_0000 && id == NewID(Zone(id), Node(id))
  }

  /** The number whose decimal digits are those of acc followed by those of m. */
  function Append(acc: nat, m: nat): nat {
    if m < 10 then acc * 10 + m else Append(acc, m / 10) * 10 + m % 10
  }

  lemma {:induction false} AppendZero(m: nat)
    ensures Append(0, m) == m
  {
    if m >= 10 {
      AppendZero(m / 10);
    }
  }

  /** Scanning the digits of m after reading acc yields the number they continue. */
  lemma {:induction false} ScanDecimal(m: nat, tail: string, acc: nat)
    requires Append(acc, m) <= MAX_UINT64
    ensures Scan(Decimal(m) + tail, acc) == Scan(tail, Append(acc, m))
  {
    var rest := [Digit(m % 10)] + tail;
    assert rest[1..] == tail;
    if m < 10 {
      assert Decimal(m) + tail == rest;
    } else {
      assert Decimal(m) + tail == Decimal(m / 10) + rest;
      ScanDecimal(m / 10, rest, acc);
    }
  }

  lemma ParseDecimal(n: nat)
    requires n <= MAX_UINT64
    ensures ParseUint(Decimal(n)) == Parsed(n, true)
  {
    AppendZero(n);
    ScanDecimal(n, [], 0);
    assert Decimal(n) + [] == Decimal(n);
  }

  lemma FirstDotOf(pre: string, post: string)
    requires forall i :: 0 <= i < |pre| ==> pre[i] != '.'
    ensures FirstDot(pre + "." + post) == |pre|
  {
    var s := pre + "." + post;
    assert s[|pre|] == '.';
    assert forall i :: 0 <= i < |pre| ==> s[i] == pre[i];
  }

  lemma FirstDotNone(s: string)
    requires forall i :: 0 <= i < |s| ==> s[i] != '.'
    ensures FirstDot(s) == |s|
  {}

  /** What Zone and Node read for a part that an identifier was made from. */
  function ReadBack(i: int): int {
    if i == -MAX_INT64 - 1 then 0 else if i < 0 then -i else i
  }

  lemma PrintedPart(i: int)
    requires -MAX_INT64 - 1 <= i <= MAX_INT64
    ensures var s := Itoa(Abs64(i));
            (forall j :: 0 <= j < |s| ==> s[j] != '.') && ParsedOrZero(s) == ReadBack(i)
  {
    if i != -MAX_INT64 - 1 {
      ParseDecimal(Abs64(i));
    }
  }

  /**
   Reading back an identifier gives the magnitudes it was made from, for every pair of 64-bit numbers but one
   value: the least one is its own negation, is printed with a sign, and is read as zero.
   */
  lemma NewIDRoundTrip(zone: int, node: int)
    requires -MAX_INT64 - 1 <= zone <= MAX_INT64 && -MAX_INT64 - 1 <= node <= MAX_INT64
    ensures Zone(NewID(zone, node)) == ReadBack(zone) && Node(NewID(zone, node)) == ReadBack(node)
  {
    var z, k := Itoa(Abs64(zone)), Itoa(Abs64(node));
    var id := NewID(zone, node).text;
    assert id == z + "." + k;
    PrintedPart(zone);
    PrintedPart(node);
    FirstDotOf(z, k);
    assert id[..|z|] == z && id[|z| + 1..] == k;
    FirstDotNone(k);
    assert k[..|k|] == k;
  }

  /** Identifiers made from 16-bit parts are canonical and determine the parts. */
  lemma NewIDCanonical(zone: nat, node: nat)
    requires zone < 0x1_0000 && node < 0x1_0000
    ensures Canonical(NewID(zone, node)) && Zone(NewID(zone, node)) == zone && Node(NewID(zone, node)) == node
  {
    NewIDRoundTrip(zone, node);
  }

  // ---------- What the digits mean ----------

  function Pow10(k: nat): (p: nat)
    ensures p > 0
  {
    if k == 0 then 1 else 10 * Pow10(k - 1)
  }

  predicate AllDigits(s: string) { forall i :: 0 <= i < |s| ==> '0' <= s[i] <= '9' }

  /** The sum of (s[i] - '0') * 10^(|s| - 1 - i). */
  function Sum(s: string): int {
    if s == [] then 0 else (s[0] as int - '0' as int) * Pow10(|s| - 1) + Sum(s[1..])
  }

  lemma {:induction false} SumIsNat(s: string)
    requires AllDigits(s)
    ensures Sum(s) >= 0
  {
    if s != [] {
      SumIsNat(s[1..]);
      assert (s[0] as int - '0' as int) * Pow10(|s| - 1) >= 0;
    }
  }

  lemma Shift(acc: int, d: int, p: int)
    ensures (acc * 10 + d) * p == acc * (10 * p) + d * p
  {}

  lemma AtLeast(n: nat, p: nat)
    requires p > 0
    ensures n * p >= n
  {}

  lemma {:induction false} ScanMeans(s: string, acc: nat)
    requires AllDigits(s) && acc <= MAX_UINT64
    ensures var n := acc * Pow10(|s|) + Sum(s);
            && (Scan(s, acc).ok <==> n <= MAX_UINT64)
            && Scan(s, acc).value == if n <= MAX_UINT64 then n else MAX_UINT64
  {
    if s != [] {
      var d, p := s[0] as int - '0' as int, Pow10(|s| - 1);
      var n := acc * 10 + d;
      Shift(acc, d, p);
      assert acc * Pow10(|s|) + Sum(s) == n * p + Sum(s[1..]);
      SumIsNat(s[1..]);
      AtLeast(n, p);
      if n <= MAX_UINT64 {
        ScanMeans(s[1..], n);
      }
    }
  }

  lemma {:induction false} ScanRejects(s: string, acc: nat)
    requires !AllDigits(s)
    ensures !Scan(s, acc).ok
  {
    if IsDigit(s[0]) {
      assert !AllDigits(s[1..]) by {
        var i :| 0 <= i < |s| && !('0' <= s[i] <= '9');
        assert s[1..][i - 1] == s[i];
      }
      if acc * 10 + DigitValue(s[0]) <= MAX_UINT64 {
        ScanRejects(s[1..], acc * 10 + DigitValue(s[0]));
      }
    }
  }

  /** A text parses exactly when it consists of digits whose sum fits 64 bits, and then to that sum. */
  lemma ParseUintMeans(s: string)
    ensures ParseUint(s).ok <==> s != [] && AllDigits(s) && Sum(s) <= 18446744073709551615
    ensures ParseUint(s).ok ==> ParseUint(s).value == Sum(s)
    ensures s != [] && AllDigits(s) && !ParseUint(s).ok ==> ParseUint(s).value == 18446744073709551615
  {
    if AllDigits(s) {
      ScanMeans(s, 0);
    } else {
      ScanRejects(s, 0);
    }
  }

  lemma {:induction false} SumMore(s: string, c: char)
    ensures Sum(s + [c]) == 10 * Sum(s) + (c as int - '0' as int)
  {
    if s == [] {
      assert s + [c] == [c];
    } else {
      var d, p := s[0] as int - '0' as int, Pow10(|s| - 1);
      assert (s + [c])[1..] == s[1..] + [c];
      SumMore(s[1..], c);
      assert Pow10(|s|) == 10 * p;
      assert d * (10 * p) == 10 * (d * p);
    }
  }

  /** s is the usual way to write the number: digits, the first of several not a zero. */
  ghost predicate Writes(s: string, n: int) {
    s != [] && AllDigits(s) && Sum(s) == n && (|s| > 1 ==> s[0] != '0')
  }

  lemma {:induction false} DecimalMeans(n: nat)
    ensures Writes(Decimal(n), n) && (n > 0 ==> Decimal(n)[0] != '0')
  {
    if n < 10 {
      assert Sum([Digit(n)]) == n * Pow10(0) + Sum([]);
    } else {
      DecimalMeans(n / 10);
      SumMore(Decimal(n / 10), Digit(n % 10));
      assert Decimal(n)[0] == Decimal(n / 10)[0];
    }
  }

  /** The int that Zone and Node make of a string of digits: 64 bits of two's complement, 0 beyond them. */
  function Number(s: string): int {
    if s == [] || Sum(s) > 18446744073709551615 then 0
    else if Sum(s) > 9223372036854775807 then Sum(s) - 18446744073709551616
    else Sum(s)
  }

  lemma NumberParsed(s: string)
    requires AllDigits(s)
    ensures ParsedOrZero(s) == Number(s)
  {
    ParseUintMeans(s);
    SumIsNat(s);
  }

  /** Zone is the number before the first dot, Node the number after it, up to the next dot. */
  lemma PartsMean(z: string, n: string, rest: string)
    requires AllDigits(z) && AllDigits(n) && (rest == [] || rest[0] == '.')
    ensures var id := ID(z + "." + n + rest); Zone(id) == Number(z) && Node(id) == Number(n)
  {
    var s := z + "." + n + rest;
    assert s == z + "." + (n + rest);
    FirstDotOf(z, n + rest);
    assert s[..|z|] == z && s[|z| + 1..] == n + rest;
    NumberParsed(z);
    NumberParsed(n);
    if rest == [] {
      assert n + rest == n;
      FirstDotNone(n);
      assert n[..|n|] == n;
    } else {
      assert n + rest == n + "." + rest[1..];
      FirstDotOf(n, rest[1..]);
      assert (n + rest)[..|n|] == n;
    }
  }

  /** Without a dot the zone is 0 and the text is the node. */
  lemma NoDotMeans(s: string)
    requires AllDigits(s)
    ensures Zone(ID(s)) == 0 && Node(ID(s)) == Number(s)
  {
    FirstDotNone(s);
    NumberParsed(s);
  }

  /** The text of a new identifier: both magnitudes as they are usually written, with a dot between them. */
  lemma NewIDMeans(zone: int, node: int) returns (z: string, n: string)
    requires -MAX_INT64 <= zone <= MAX_INT64 && -MAX_INT64 <= node <= MAX_INT64
    ensures NewID(zone, node).text == z + "." + n
    ensures Writes(z, if zone < 0 then -zone else zone) && Writes(n, if node < 0 then -node else node)
  {
    z, n := Itoa(Abs64(zone)), Itoa(Abs64(node));
    DecimalMeans(Abs64(zone));
    DecimalMeans(Abs64(node));
  }
}
