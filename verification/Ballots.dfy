/**
 Ballot numbers (ballot.go): a 32-bit counter, a zone and a node packed into a uint64.
 A uint64 is a natural number below 2^64; shifts and the bitwise or are written out on it.
 */
module Ballots {
  import opened Ids

  const TWO16: nat := 0x1_0000
  const TWO32: nat := 0x1_0000_0000
  const TWO64: nat := 0x1_0000_0000_0000_0000

  type Ballot = b: nat | b < TWO64

  /** The bits of a Go int: two's complement on 64 bits. */
  function Bits(i: int): Ballot { i % TWO64 }

  /** Bitwise or. */
  function Or(a: nat, b: nat): nat {
    if a == 0 then b
    else if b == 0 then a
    else 2 * Or(a / 2, b / 2) + (if a % 2 == 1 || b % 2 == 1 then 1 else 0)
  }

  function NewBallot(n: int, id: ID): Ballot { Pack(n, Zone(id), Node(id)) }

  /** n<<32 | zone<<16 | node. */
  function Pack(n: int, zone: int, node: int): Ballot {
    var high := Or(Bits(n * TWO32), Bits(zone * TWO16));
    Powers();
    OrBound(Bits(n * TWO32), Bits(zone * TWO16), 64);
    OrBound(high, Bits(node), 64);
    Or(high, Bits(node))
  }

  function N(b: Ballot): (n: nat)
    ensures n < TWO32
  {
    b / TWO32
  }

  function BallotID(b: Ballot): ID { NewID(b % TWO32 / TWO16, b % TWO16) }

  /** The update that Ballot.Next makes through its pointer. */
  function Next(b: Ballot, id: ID): Ballot { NewBallot(N(b) + 1, id) }

  function ToString(b: Ballot): string { Decimal(N(b)) + "." + BallotID(b).text }

  function FromString(s: string): Ballot {
    var i := FirstDot(s);
    if i < |s| then NewBallot(ParseUint(s[..i]).value, ID(s[i + 1..])) else NewBallot(ParseUint(s).value, ID(""))
  }

  /** NextBallot on a Go int, whose right shift keeps the sign; the result is given by its bits. */
  function NextBallot(ballot: int, id: ID): nat {
    Or(Bits((ballot / TWO32 + 1) * TWO32), Or(Bits(Zone(id) * TWO16), Bits(Node(id))))
  }

  function LeaderID(ballot: int): ID { NewID(Bits(ballot) % TWO32 / TWO16, Bits(ballot) % TWO16) }

  // ---------- The bitwise or ----------

  function Pow2(k: nat): (p: nat)
    ensures p > 0
  {
    if k == 0 then 1 else 2 * Pow2(k - 1)
  }

  lemma {:induction false} OrBound(a: nat, b: nat, k: nat)
    requires a < Pow2(k) && b < Pow2(k)
    ensures Or(a, b) < Pow2(k)
  {
    if a != 0 && b != 0 {
      OrBound(a / 2, b / 2, k - 1);
    }
  }

  lemma Powers()
    ensures Pow2(16) == TWO16 && Pow2(32) == TWO32 && Pow2(64) == TWO64
  {
    assert Pow2(8) == 256;
    assert Pow2(16) == 0x1_0000;
    assert Pow2(24) == 0x100_0000;
    assert Pow2(32) == 0x1_0000_0000;
    assert Pow2(40) == 0x100_0000_0000;
    assert Pow2(48) == 0x1_0000_0000_0000;
    assert Pow2(56) == 0x100_0000_0000_0000;
  }

  /** Bit k of a number. */
  function Bit(a: nat, k: nat): bool { if k == 0 then a % 2 == 1 else Bit(a / 2, k - 1) }

  /** Or works bit by bit. */
  lemma {:induction false} OrMeans(a: nat, b: nat, k: nat)
    ensures Bit(Or(a, b), k) <==> Bit(a, k) || Bit(b, k)
  {
    if k > 0 {
      OrMeans(a / 2, b / 2, k - 1);
      assert a != 0 && b != 0 ==> Or(a, b) / 2 == Or(a / 2, b / 2);
    }
    if a == 0 || b == 0 {
      NoBits(k);
    }
  }

  lemma {:induction false} NoBits(k: nat)
    ensures !Bit(0, k)
  {
    if k > 0 {
      NoBits(k - 1);
    }
  }

  /** On numbers without a common bit, or is addition. */
  lemma {:induction false} OrDisjoint(h: nat, low: nat, k: nat)
    requires low < Pow2(k)
    ensures Or(h * Pow2(k), low) == h * Pow2(k) + low
  {
    var p := Pow2(k);
    if h * p != 0 && low != 0 {
      var q := Pow2(k - 1);
      assert h * p == 2 * (h * q);
      OrDisjoint(h, low / 2, k - 1);
      assert (h * p) / 2 == h * q && (h * p) % 2 == 0;
    }
  }

  lemma {:induction false} OrAssociative(a: nat, b: nat, c: nat)
    ensures Or(Or(a, b), c) == Or(a, Or(b, c))
  {
    if a != 0 && b != 0 && c != 0 {
      OrAssociative(a / 2, b / 2, c / 2);
      OrHalf(a, b);
      OrHalf(b, c);
    }
  }

  lemma OrHalf(a: nat, b: nat)
    ensures Or(a, b) / 2 == Or(a / 2, b / 2)
    ensures Or(a, b) % 2 == 1 <==> a % 2 == 1 || b % 2 == 1
    ensures a != 0 || b != 0 ==> Or(a, b) != 0
  {
    OrZero(a);
  }

  lemma OrZero(a: nat)
    ensures Or(a, 0) == a
  {}

  // ---------- What the packing means ----------

  /** Fields of 16 bits do not overlap, and the counter keeps its low 32 bits. */
  lemma PackSums(n: int, zone: nat, node: nat)
    requires zone < TWO16 && node < TWO16
    ensures Pack(n, zone, node) == (n % TWO32) * TWO32 + zone * TWO16 + node
  {
    var c := n % TWO32;
    ShiftKeepsLowBits(n);
    assert Bits(zone * TWO16) == zone * TWO16 && Bits(node) == node;
    OrOfFields(c, zone, node);
  }

  lemma OrOfFields(c: nat, zone: nat, node: nat)
    requires zone < TWO16 && node < TWO16
    ensures Or(Or(c * TWO32, zone * TWO16), node) == c * TWO32 + zone * TWO16 + node
  {
    assert Or(c * TWO32, zone * TWO16) == c * TWO32 + zone * TWO16 by {
      Powers();
      OrDisjoint(c, zone * TWO16, 32);
    }
    var h := c * TWO16 + zone;
    assert h * TWO16 == c * TWO32 + zone * TWO16;
    assert Or(h * TWO16, node) == h * TWO16 + node by {
      Powers();
      OrDisjoint(h, node, 16);
    }
  }

  lemma PackFields(n: int, zone: nat, node: nat)
    requires zone < TWO16 && node < TWO16
    ensures var b := Pack(n, zone, node);
            N(b) == n % TWO32 && b % TWO32 / TWO16 == zone && b % TWO16 == node
  {
    PackSums(n, zone, node);
    SumFields(n % TWO32, zone, node);
  }

  lemma SumFields(c: nat, zone: nat, node: nat)
    requires zone < TWO16 && node < TWO16
    ensures var b := c * TWO32 + zone * TWO16 + node;
            b / TWO32 == c && b % TWO32 / TWO16 == zone && b % TWO16 == node
  {
    HighPart(c, zone * TWO16 + node);
    LowPart(c * TWO16 + zone, node);
    LowPart(zone, node);
  }

  lemma HighPart(c: nat, low: nat)
    requires low < TWO32
    ensures (c * TWO32 + low) / TWO32 == c && (c * TWO32 + low) % TWO32 == low
  {}

  lemma LowPart(c: nat, low: nat)
    requires low < TWO16
    ensures (c * TWO16 + low) / TWO16 == c && (c * TWO16 + low) % TWO16 == low
  {}

  lemma ShiftKeepsLowBits(n: int)
    ensures Bits(n * TWO32) == (n % TWO32) * TWO32
  {
    var q := n / TWO32;
    assert n == q * TWO32 + n % TWO32;
    assert n * TWO32 == q * TWO64 + (n % TWO32) * TWO32;
    Residue(n * TWO32, q, (n % TWO32) * TWO32);
  }

  lemma Residue(x: int, q: int, r: nat)
    requires x == q * TWO64 + r && r < TWO64
    ensures x % TWO64 == r
  {
    var d := x / TWO64;
    assert (d - q) * TWO64 == r - x % TWO64;
  }

  /** Packing and reading the fields back (the property ballot_test.go samples). */
  lemma PackRoundTrip(n: int, id: ID)
    requires Canonical(id)
    ensures N(NewBallot(n, id)) == n % TWO32 && BallotID(NewBallot(n, id)) == id
  {
    PackFields(n, Zone(id), Node(id));
    var b := NewBallot(n, id);
    assert BallotID(b) == NewID(Zone(id), Node(id));
  }

  predicate LexicographicallyBelow(n: nat, a: ID, m: nat, b: ID) {
    n < m || (n == m && (Zone(a) < Zone(b) || (Zone(a) == Zone(b) && Node(a) < Node(b))))
  }

  /** The order of packed ballots is the lexicographic order of counter, zone and node. */
  lemma OrderIsLexicographic(n: nat, a: ID, m: nat, b: ID)
    requires Canonical(a) && Canonical(b) && n < TWO32 && m < TWO32
    ensures NewBallot(n, a) < NewBallot(m, b) <==> LexicographicallyBelow(n, a, m, b)
    ensures NewBallot(n, a) == NewBallot(m, b) <==> n == m && a == b
  {
    PackOrdered(n, Zone(a), Node(a), m, Zone(b), Node(b));
    assert Zone(a) == Zone(b) && Node(a) == Node(b) ==> a == b;
  }

  lemma PackOrdered(n: nat, z: nat, k: nat, n': nat, z': nat, k': nat)
    requires z < TWO16 && k < TWO16 && z' < TWO16 && k' < TWO16 && n < TWO32 && n' < TWO32
    ensures Pack(n, z, k) < Pack(n', z', k') <==> n < n' || (n == n' && (z < z' || (z == z' && k < k')))
    ensures Pack(n, z, k) == Pack(n', z', k') <==> n == n' && z == z' && k == k'
  {
    assert n % TWO32 == n && n' % TWO32 == n';
    var b, b' := n * TWO32 + z * TWO16 + k, n' * TWO32 + z' * TWO16 + k';
    assert Pack(n, z, k) == b by { PackSums(n, z, k); }
    assert Pack(n', z', k') == b' by { PackSums(n', z', k'); }
    assert b < b' <==> n < n' || (n == n' && (z < z' || (z == z' && k < k'))) by { SumsOrdered(n, z, k, n', z', k'); }
    assert b' < b <==> n' < n || (n' == n && (z' < z || (z' == z && k' < k))) by { SumsOrdered(n', z', k', n, z, k); }
  }

  lemma SumsOrdered(n: nat, z: nat, k: nat, n': nat, z': nat, k': nat)
    requires z < TWO16 && k < TWO16 && z' < TWO16 && k' < TWO16
    ensures n * TWO32 + z * TWO16 + k < n' * TWO32 + z' * TWO16 + k'
       <==> n < n' || (n == n' && (z < z' || (z == z' && k < k')))
  {}

  /** Every ballot is the packing of its own fields, whose identifier is canonical. */
  lemma Unpack(b: Ballot)
    ensures Canonical(BallotID(b)) && NewBallot(N(b), BallotID(b)) == b
  {
    var zone, node := b % TWO32 / TWO16, b % TWO16;
    NewIDCanonical(zone, node);
    PackOwnFields(b);
  }

  lemma PackOwnFields(b: Ballot)
    ensures Pack(N(b), b % TWO32 / TWO16, b % TWO16) == b
  {
    FieldsOf(b);
    PackSums(N(b), b % TWO32 / TWO16, b % TWO16);
  }

  lemma FieldsOf(b: Ballot)
    ensures b == (N(b) % TWO32) * TWO32 + b % TWO32 / TWO16 * TWO16 + b % TWO16
  {
    var low := b % TWO32;
    assert b == N(b) * TWO32 + low && N(b) % TWO32 == N(b);
    assert low == low / TWO16 * TWO16 + low % TWO16;
    assert b == (N(b) * TWO16 + low / TWO16) * TWO16 + low % TWO16;
    assert b % TWO16 == low % TWO16;
  }

  /** Printing a ballot and reading the text back gives the ballot, for every 64-bit ballot. */
  lemma StringRoundTrip(b: Ballot)
    ensures FromString(ToString(b)) == b
  {
    var counter, id := Decimal(N(b)), BallotID(b).text;
    FirstDotOf(counter, id);
    var s := ToString(b);
    assert s[..|counter|] == counter && s[|counter| + 1..] == id;
    ParseDecimal(N(b));
    Unpack(b);
  }

  /** The text of a ballot: counter, zone and node as they are usually written, with dots between them. */
  lemma StringMeans(b: Ballot) returns (n: string, z: string, k: string)
    ensures ToString(b) == n + "." + z + "." + k
    ensures Writes(n, b / 4294967296) && Writes(z, b % 4294967296 / 65536) && Writes(k, b % 65536)
  {
    n := Decimal(N(b));
    DecimalMeans(N(b));
    z, k := NewIDMeans(b % TWO32 / TWO16, b % TWO16);
  }

  /** Where the three parts stand in the 64 bits. */
  lemma PackMeans(n: nat, id: ID)
    requires Canonical(id) && n < 4294967296
    ensures NewBallot(n, id) == n * 4294967296 + Zone(id) * 65536 + Node(id)
  {
    PackSums(n, Zone(id), Node(id));
  }

  /** Next is a later ballot of the given node exactly while the counter has not reached its last value. */
  lemma NextIncreases(b: Ballot, id: ID)
    requires Canonical(id)
    ensures b < Next(b, id) <==> N(b) < TWO32 - 1
    ensures N(b) < TWO32 - 1 ==> N(Next(b, id)) == N(b) + 1
    ensures BallotID(Next(b, id)) == id
  {
    PackRoundTrip(N(b) + 1, id);
    if N(b) < TWO32 - 1 {
      assert N(Next(b, id)) == N(b) + 1;
    } else {
      assert (N(b) + 1) % TWO32 == 0;
    }
  }

  function NextTimes(b: Ballot, id: ID, k: nat): Ballot {
    if k == 0 then b else Next(NextTimes(b, id, k - 1), id)
  }

  lemma {:induction false} CounterAfter(b: Ballot, id: ID, k: nat)
    requires Canonical(id)
    ensures N(NextTimes(b, id, k)) == (N(b) + k) % TWO32
    ensures k > 0 ==> BallotID(NextTimes(b, id, k)) == id
  {
    if k > 0 {
      CounterAfter(b, id, k - 1);
      var before := NextTimes(b, id, k - 1);
      PackRoundTrip(N(before) + 1, id);
      assert NextTimes(b, id, k) == Next(before, id);
      ResidueStep(N(b) + k - 1);
    }
  }

  lemma ResidueStep(x: nat)
    ensures (x % TWO32 + 1) % TWO32 == (x + 1) % TWO32
    ensures (x + TWO32) % TWO32 == x % TWO32
  {}

  /** After 2^32 steps the counter has come round: the ballots of one node repeat. */
  lemma CounterWraps(b: Ballot, id: ID, k: nat)
    requires Canonical(id) && k > 0
    ensures NextTimes(b, id, k + TWO32) == NextTimes(b, id, k)
  {
    CounterAfter(b, id, k);
    CounterAfter(b, id, k + TWO32);
    ResidueStep(N(b) + k);
    Unpack(NextTimes(b, id, k));
    Unpack(NextTimes(b, id, k + TWO32));
  }

  /** The helper on plain ints agrees with Ballot.Next on every ballot, negative as an int or not. */
  lemma NextBallotAgrees(b: Ballot, id: ID)
    ensures NextBallot(ToInt64(b), id) == Next(b, id)
  {
    SignedCounter(b);
    var high := Bits((N(b) + 1) * TWO32);
    OrAssociative(high, Bits(Zone(id) * TWO16), Bits(Node(id)));
  }

  lemma SignedCounter(b: Ballot)
    ensures Bits((ToInt64(b) / TWO32 + 1) * TWO32) == Bits((N(b) + 1) * TWO32)
  {
    var c, d := N(b) + 1, ToInt64(b) / TWO32 + 1;
    SignedQuotient(b);
    ShiftKeepsLowBits(c);
    ShiftKeepsLowBits(d);
    assert d % TWO32 == c % TWO32;
  }

  lemma SignedQuotient(b: Ballot)
    ensures ToInt64(b) / TWO32 == N(b) || ToInt64(b) / TWO32 + TWO32 == N(b)
  {}

  lemma LeaderIDAgrees(b: Ballot)
    ensures LeaderID(ToInt64(b)) == BallotID(b)
  {
    if b > MAX_INT64 {
      Residue(ToInt64(b), -1, b);
    }
  }

  /** The counter alone never falls when the ballot grows. */
  lemma CounterMonotone(a: Ballot, b: Ballot)
    requires a <= b
    ensures N(a) <= N(b)
  {}
}
