/** Small vocabulary shared by every part of the monitor's model. */
module Common {

  datatype Option<+T> = None | Some(value: T)

  /** One octet on the wire. */
  type Byte = b: int | 0 <= b < 256

  /** Rust's `saturating_sub` on unsigned numbers. */
  function Minus(a: nat, b: nat): (r: nat)
    ensures r == 0 || r + b == a
    ensures a <= r + b
  {
    if a < b then 0 else a - b
  }

  function Max(a: nat, b: nat): (r: nat)
    ensures a <= r && b <= r && (r == a || r == b)
  {
    if a < b then b else a
  }

  function Min(a: nat, b: nat): (r: nat)
    ensures r <= a && r <= b && (r == a || r == b)
  {
    if a < b then a else b
  }

  function Front<T>(s: seq<T>): seq<T>
    requires s != []
  {
    s[..|s| - 1]
  }

  function Last<T>(s: seq<T>): T
    requires s != []
  {
    s[|s| - 1]
  }

  function LastOf<T>(s: seq<T>): Option<T> {
    if s == [] then None else Some(Last(s))
  }

  function Sum(s: seq<nat>): nat {
    if s == [] then 0 else Sum(Front(s)) + Last(s)
  }

  /** `m` is the largest element of `s`, or 0 when there is none. */
  ghost predicate IsLargest(s: seq<nat>, m: nat) {
    && (forall i :: 0 <= i < |s| ==> s[i] <= m)
    && (m == 0 || m in s)
  }

  /** The number a run of octets spells, most significant first. */
  function BeValue(s: seq<Byte>): nat {
    if s == [] then 0 else BeValue(Front(s)) * 256 + Last(s)
  }

  lemma SplitAt<T>(s: seq<T>, i: nat, j: nat)
    requires i <= j <= |s|
    ensures s[i..j] + s[j..] == s[i..]
  {
  }

  lemma TakeOneMore<T>(a: seq<T>, b: seq<T>, i: nat)
    requires i < |b|
    ensures a + b[..i] + [b[i]] == a + b[..i + 1]
  {
    assert b[..i] + [b[i]] == b[..i + 1];
  }

  lemma Regroup<T>(a: seq<T>, b: seq<T>, c: seq<T>)
    ensures a + (b + c) == a + b + c
  {
  }

  lemma ScaledOrder(a: nat, b: nat, d: nat)
    requires a <= b
    ensures a * d <= b * d
  {
  }

  lemma ConsSnoc<T>(x: T, s: seq<T>)
    requires s != []
    ensures [x] + s == ([x] + Front(s)) + [Last(s)] && Front(s) + [Last(s)] == s
  {
  }
}
