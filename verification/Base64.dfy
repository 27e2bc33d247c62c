/** src/email.rs: base64 for `AUTH PLAIN`, and the reader of section 4 of RFC 4648 that undoes it. */
module Base64 {
  import opened Common

  const UPPER: string := "ABCDEFGHIJKLMNOPQRSTUVWXYZ"
  const LOWER: string := "abcdefghijklmnopqrstuvwxyz"
  const DIGITS: string := "0123456789"
  const ALPHABET: string := UPPER + LOWER + DIGITS + "+/"

  /** What shifting right by `18 - 6 * i` divides by. */
  function Scale(i: nat): (d: nat)
    ensures d > 0
  {
    if i == 0 then 262144 else if i == 1 then 4096 else if i == 2 then 64 else 1
  }

  function Three(a: nat, b: nat, c: nat): nat {
    a * 65536 + b * 256 + c
  }

  function Group(c: seq<Byte>): nat
    requires 1 <= |c| <= 3
  {
    Three(c[0], if |c| > 1 then c[1] else 0, if |c| > 2 then c[2] else 0)
  }

  function Symbol(c: seq<Byte>, i: nat): char
    requires 1 <= |c| <= 3 && i < 4
  {
    if i <= |c| then ALPHABET[Group(c) / Scale(i) % 64] else '='
  }

  function Quantum(c: seq<Byte>): string
    requires 1 <= |c| <= 3
  {
    [Symbol(c, 0), Symbol(c, 1), Symbol(c, 2), Symbol(c, 3)]
  }

  /** The text of the octets from `at` on, three at a time. */
  function EncodedFrom(raw: seq<Byte>, at: nat): string
    requires at <= |raw|
    decreases |raw| - at
  {
    if at == |raw| then ""
    else Quantum(raw[at..Min(at + 3, |raw|)]) + EncodedFrom(raw, Min(at + 3, |raw|))
  }

  function Encoded(raw: seq<Byte>): string {
    EncodedFrom(raw, 0)
  }

  method Encode(raw: seq<Byte>) returns (out: string)
    ensures out == Encoded(raw)
  {
    out := "";
    var at := 0;
    while at < |raw|
      invariant at <= |raw|
      invariant Encoded(raw) == out + EncodedFrom(raw, at)
    {
      var next := Min(at + 3, |raw|);
      Regroup(out, Quantum(raw[at..next]), EncodedFrom(raw, next));
      out := PushQuantum(out, raw[at..next]);
      at := next;
    }
  }

  /** The four characters of one chunk, pushed one by one. */
  method PushQuantum(text: string, c: seq<Byte>) returns (out: string)
    requires 1 <= |c| <= 3
    ensures out == text + Quantum(c)
  {
    out := text;
    for i := 0 to 4
      invariant out == text + Quantum(c)[..i]
    {
      TakeOneMore(text, Quantum(c), i);
      if i <= |c| {
        out := out + [ALPHABET[Group(c) / Scale(i) % 64]];
      } else {
        out := out + ['='];
      }
    }
    assert Quantum(c)[..4] == Quantum(c);
  }

  // The reader.

  function SymbolValue(ch: char): Option<nat> {
    if 'A' <= ch <= 'Z' then Some(ch as nat - 'A' as nat)
    else if 'a' <= ch <= 'z' then Some(ch as nat - 'a' as nat + 26)
    else if '0' <= ch <= '9' then Some(ch as nat - '0' as nat + 52)
    else if ch == '+' then Some(62)
    else if ch == '/' then Some(63)
    else None
  }

  /** Four characters: three octets, or fewer where padding says so and the spare bits are zero. */
  function ReadQuantum(q: string): Option<seq<Byte>>
    requires |q| == 4
  {
    var a, b, c, d := SymbolValue(q[0]), SymbolValue(q[1]), SymbolValue(q[2]), SymbolValue(q[3]);
    if a.None? || b.None? then None
    else if q[2] == '=' && q[3] == '=' then
      if b.value % 16 != 0 then None else Some([a.value * 4 + b.value / 16])
    else if c.None? then None
    else if q[3] == '=' then
      if c.value % 4 != 0 then None
      else Some([a.value * 4 + b.value / 16, b.value % 16 * 16 + c.value / 4])
    else if d.None? then None
    else Some([a.value * 4 + b.value / 16, b.value % 16 * 16 + c.value / 4, c.value % 4 * 64 + d.value])
  }

  /** Padding may only end the text. */
  function Read(s: string): Option<seq<Byte>> {
    if s == "" then Some([])
    else if |s| < 4 then None
    else
      var first, rest := ReadQuantum(s[..4]), Read(s[4..]);
      if first.None? || rest.None? then None
      else if |first.value| < 3 && s[4..] != "" then None
      else Some(first.value + rest.value)
  }

  lemma UpperInPlace(v: nat)
    requires v < 26
    ensures UPPER[v] as int == 'A' as int + v
  {
  }

  lemma LowerInPlace(v: nat)
    requires v < 26
    ensures LOWER[v] as int == 'a' as int + v
  {
  }

  lemma DigitInPlace(v: nat)
    requires v < 10
    ensures DIGITS[v] as int == '0' as int + v
  {
  }

  lemma PieceAt(a: string, b: string, c: string, d: string, v: nat)
    requires |a| == |b| == 26 && |c| == 10 && |d| == 2 && v < 64
    ensures (a + b + c + d)[v] ==
      if v < 26 then a[v] else if v < 52 then b[v - 26] else if v < 62 then c[v - 52] else d[v - 62]
  {
  }

  /** Every symbol of the table stands for its own place, and none is the padding. */
  lemma AlphabetReads(v: nat)
    requires v < 64
    ensures SymbolValue(ALPHABET[v]) == Some(v) && ALPHABET[v] != '='
  {
    PieceAt(UPPER, LOWER, DIGITS, "+/", v);
    if v < 26 {
      UpperInPlace(v);
      SymbolIs(UPPER[v], v);
    } else if v < 52 {
      LowerInPlace(v - 26);
      SymbolIs(LOWER[v - 26], v);
    } else if v < 62 {
      DigitInPlace(v - 52);
      SymbolIs(DIGITS[v - 52], v);
    }
  }

  lemma SymbolIs(ch: char, v: nat)
    requires v < 62
    requires ch as int == if v < 26 then 'A' as int + v else if v < 52 then 'a' as int + (v - 26) else '0' as int + (v - 52)
    ensures SymbolValue(ch) == Some(v) && ch != '='
  {
  }

  lemma Quotient(n: nat, d: nat, q: nat, r: nat)
    requires n == d * q + r && r < d
    ensures n / d == q && n % d == r
  {
    var k := n / d - q;
    assert d * k == d * (n / d) - d * q;
    if k >= 1 {
      Multiples(d, k);
    } else if k <= -1 {
      Multiples(d, -k);
    }
  }

  lemma Multiples(d: nat, k: int)
    requires k >= 1
    ensures d * k >= d
  {
  }

  /** The four sextets of three octets. */
  lemma Sextets(x: Byte, y: Byte, z: Byte)
    ensures var n := Three(x, y, z);
            && n / 262144 % 64 == x / 4
            && n / 4096 % 64 == x % 4 * 16 + y / 16
            && n / 64 % 64 == y % 16 * 4 + z / 64
            && n % 64 == z % 64
  {
    var a: nat, b: nat, c: nat := x, y, z;
    var n := Three(x, y, z);
    Quotient(n, 262144, a / 4, a % 4 * 65536 + b * 256 + c);
    Quotient(n, 4096, a * 16 + b / 16, b % 16 * 256 + c);
    Quotient(a * 16 + b / 16, 64, a / 4, a % 4 * 16 + b / 16);
    Quotient(n, 64, a * 1024 + b * 4 + c / 64, c % 64);
    Quotient(a * 1024 + b * 4 + c / 64, 64, a * 16 + b / 16, b % 16 * 4 + c / 64);
  }

  lemma SymbolsRead(c: seq<Byte>)
    requires 1 <= |c| <= 3
    ensures forall i: nat :: i < 4 && i <= |c| ==> SymbolValue(Symbol(c, i)) == Some(Group(c) / Scale(i) % 64)
    ensures forall i: nat :: i < 4 ==> (Symbol(c, i) == '=' <==> i > |c|)
  {
    forall i: nat | i < 4 && i <= |c|
      ensures SymbolValue(Symbol(c, i)) == Some(Group(c) / Scale(i) % 64) && Symbol(c, i) != '='
    {
      AlphabetReads(Group(c) / Scale(i) % 64);
    }
  }

  /** Four characters that spell the first `len` octets of the 24-bit group `n`. */
  predicate Spells(q: string, n: nat, len: nat) {
    && |q| == 4
    && SymbolValue(q[0]) == Some(n / 262144 % 64)
    && SymbolValue(q[1]) == Some(n / 4096 % 64)
    && (if len < 2 then q[2] == '=' else SymbolValue(q[2]) == Some(n / 64 % 64))
    && (if len < 3 then q[3] == '=' else SymbolValue(q[3]) == Some(n % 64))
  }

  lemma QuantumSpells(c: seq<Byte>)
    requires 1 <= |c| <= 3
    ensures Spells(Quantum(c), Group(c), |c|)
  {
    SymbolsRead(c);
    var q := Quantum(c);
    assert q[0] == Symbol(c, 0) && q[1] == Symbol(c, 1) && q[2] == Symbol(c, 2) && q[3] == Symbol(c, 3);
  }

  lemma QuantumReads(c: seq<Byte>)
    requires 1 <= |c| <= 3
    ensures ReadQuantum(Quantum(c)) == Some(c)
  {
    QuantumSpells(c);
    var q := Quantum(c);
    if |c| == 1 {
      OneComesBack(q, c[0]);
      assert c == [c[0]];
    } else if |c| == 2 {
      TwoComeBack(q, c[0], c[1]);
      assert c == [c[0], c[1]];
    } else {
      ThreeComeBack(q, c[0], c[1], c[2]);
      assert c == [c[0], c[1], c[2]];
    }
  }

  lemma OneComesBack(q: string, x: Byte)
    requires Spells(q, Three(x, 0, 0), 1)
    ensures ReadQuantum(q) == Some([x])
  {
    Sextets(x, 0, 0);
    OctetsFromSextets(x, 0, 0);
    ReadOne(q, x / 4, x % 4 * 16);
  }

  lemma TwoComeBack(q: string, x: Byte, y: Byte)
    requires Spells(q, Three(x, y, 0), 2)
    ensures ReadQuantum(q) == Some([x, y])
  {
    Sextets(x, y, 0);
    OctetsFromSextets(x, y, 0);
    ReadTwo(q, x / 4, x % 4 * 16 + y / 16, y % 16 * 4);
  }

  lemma ThreeComeBack(q: string, x: Byte, y: Byte, z: Byte)
    requires Spells(q, Three(x, y, z), 3)
    ensures ReadQuantum(q) == Some([x, y, z])
  {
    Sextets(x, y, z);
    OctetsFromSextets(x, y, z);
    ReadThree(q, x / 4, x % 4 * 16 + y / 16, y % 16 * 4 + z / 64, z % 64);
  }

  lemma ReadOne(q: string, a: nat, b: nat)
    requires |q| == 4 && q[2] == '=' && q[3] == '=' && b % 16 == 0 && a * 4 + b / 16 < 256
    requires SymbolValue(q[0]) == Some(a) && SymbolValue(q[1]) == Some(b)
    ensures ReadQuantum(q) == Some([a * 4 + b / 16])
  {
  }

  lemma ReadTwo(q: string, a: nat, b: nat, c: nat)
    requires |q| == 4 && q[3] == '=' && c % 4 == 0 && a < 64 && b < 64 && c < 64
    requires SymbolValue(q[0]) == Some(a) && SymbolValue(q[1]) == Some(b) && SymbolValue(q[2]) == Some(c)
    ensures ReadQuantum(q) == Some([a * 4 + b / 16, b % 16 * 16 + c / 4])
  {
    assert q[2] != '=';
  }

  lemma ReadThree(q: string, a: nat, b: nat, c: nat, d: nat)
    requires |q| == 4 && a < 64 && b < 64 && c < 64 && d < 64
    requires SymbolValue(q[0]) == Some(a) && SymbolValue(q[1]) == Some(b)
    requires SymbolValue(q[2]) == Some(c) && SymbolValue(q[3]) == Some(d)
    ensures ReadQuantum(q) == Some([a * 4 + b / 16, b % 16 * 16 + c / 4, c % 4 * 64 + d])
  {
    assert q[2] != '=' && q[3] != '=';
  }

  lemma OctetsFromSextets(x: Byte, y: Byte, z: Byte)
    ensures x / 4 * 4 + (x % 4 * 16 + y / 16) / 16 == x
    ensures (x % 4 * 16 + y / 16) % 16 * 16 + (y % 16 * 4 + z / 64) / 4 == y
    ensures (y % 16 * 4 + z / 64) % 4 * 64 + z % 64 == z
  {
    var a: nat, b: nat, c: nat := x, y, z;
    Quotient(a % 4 * 16 + b / 16, 16, a % 4, b / 16);
    Quotient(b % 16 * 4 + c / 64, 4, b % 16, c / 64);
  }

  lemma ReadOneMore(q: string, t: string, c: seq<Byte>, rest: seq<Byte>)
    requires |q| == 4 && ReadQuantum(q) == Some(c) && Read(t) == Some(rest)
    requires |c| < 3 ==> t == ""
    ensures Read(q + t) == Some(c + rest)
  {
    assert (q + t)[..4] == q && (q + t)[4..] == t;
  }

  lemma {:induction false} RestComesBack(raw: seq<Byte>, at: nat)
    requires at <= |raw|
    ensures Read(EncodedFrom(raw, at)) == Some(raw[at..])
    decreases |raw| - at
  {
    if at < |raw| {
      var next := Min(at + 3, |raw|);
      RestComesBack(raw, next);
      QuantumReads(raw[at..next]);
      ReadOneMore(Quantum(raw[at..next]), EncodedFrom(raw, next), raw[at..next], raw[next..]);
      SplitAt(raw, at, next);
    } else {
      assert raw[at..] == [];
    }
  }

  /** Every octet string comes back, embedded zero octets included. */
  lemma TextComesBack(raw: seq<Byte>)
    ensures Read(Encoded(raw)) == Some(raw)
  {
    RestComesBack(raw, 0);
    assert raw[0..] == raw;
  }

  /** How many padding characters end the text of `n` octets. */
  function Padding(n: nat): nat {
    if n % 3 == 0 then 0 else 3 - n % 3
  }

  lemma QuantumShape(c: seq<Byte>)
    requires 1 <= |c| <= 3
    ensures forall i :: 0 <= i < 4 ==> (Quantum(c)[i] == '=' <==> i > |c|)
  {
    SymbolsRead(c);
    assert forall i: nat :: i < 4 ==> Quantum(c)[i] == Symbol(c, i);
  }

  lemma {:induction false} RestShape(raw: seq<Byte>, at: nat)
    requires at <= |raw|
    ensures var s, n := EncodedFrom(raw, at), |raw| - at;
            && |s| == (n + 2) / 3 * 4
            && forall i :: 0 <= i < |s| ==> (s[i] == '=' <==> i >= |s| - Padding(n))
    decreases |raw| - at
  {
    if at < |raw| {
      var next := Min(at + 3, |raw|);
      RestShape(raw, next);
      QuantumShape(raw[at..next]);
      PaddingCarriesOver(EncodedFrom(raw, at), Quantum(raw[at..next]), EncodedFrom(raw, next), |raw| - at);
    }
  }

  /** Four characters for every three octets begun; padding only as the last none, one or two of them. */
  lemma TextShape(raw: seq<Byte>)
    ensures |Encoded(raw)| == (|raw| + 2) / 3 * 4
    ensures forall i :: 0 <= i < |Encoded(raw)| ==>
      (Encoded(raw)[i] == '=' <==> i >= |Encoded(raw)| - Padding(|raw|))
  {
    RestShape(raw, 0);
  }

  lemma PaddingCarriesOver(s: string, q: string, t: string, n: nat)
    requires n > 0 && s == q + t && |q| == 4 && |t| == (Minus(n, 3) + 2) / 3 * 4
    requires forall i :: 0 <= i < 4 ==> (q[i] == '=' <==> i > Min(3, n))
    requires forall i :: 0 <= i < |t| ==> (t[i] == '=' <==> i >= |t| - Padding(Minus(n, 3)))
    ensures |s| == (n + 2) / 3 * 4
    ensures forall i :: 0 <= i < |s| ==> (s[i] == '=' <==> i >= |s| - Padding(n))
  {
    if n > 3 {
      assert Padding(n) == Padding(n - 3) && |t| >= 4;
    } else {
      assert t == "";
    }
  }
}
