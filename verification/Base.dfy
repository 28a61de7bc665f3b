/** Words, bytes and other things that several modules share. */
module Base {

  const WORD := 0x1_0000_0000          // uint arithmetic wraps here

  type byte = x: int | 0 <= x < 256

  type short = x: int | -0x8000 <= x < 0x8000

  datatype Option<T> = None | Some(value: T)

  // ---- Little-endian words

  /** Little-endian bytes of a 32-bit word. */
  function WordBytes(w: int): (bs: seq<byte>)
    ensures |bs| == 4
  {
    var u := w % WORD;
    var v := u / 256;
    var x := v / 256;
    [u % 256, v % 256, x % 256, x / 256]
  }

  function WordOf(bs: seq<byte>): (w: int)
    requires |bs| == 4
    ensures 0 <= w < WORD
  {
    bs[0] as int + 256 * (bs[1] as int + 256 * (bs[2] as int + 256 * (bs[3] as int)))
  }

  lemma {:induction false} BytesOfWord(bs: seq<byte>)
    requires |bs| == 4
    ensures WordBytes(WordOf(bs)) == bs
  {
    var b0: int, b1: int, b2: int, b3: int := bs[0], bs[1], bs[2], bs[3];
    var q1, w := b2 + 256 * b3, WordOf(bs);
    var q0 := b1 + 256 * q1;
    DivMod(b0, q0);
    DivMod(b1, q1);
    DivMod(b2, b3);
    assert w == b0 + 256 * q0 && w % WORD == w;
    assert WordBytes(w) == [b0, b1, b2, b3];
  }

  lemma {:induction false} DivMod(r: int, q: int)
    requires 0 <= r < 256
    ensures (r + 256 * q) % 256 == r && (r + 256 * q) / 256 == q
  {
  }

  lemma {:induction false} WordOfBytes(w: int)
    ensures WordOf(WordBytes(w)) == w % WORD
  {
  }

  // ---- Sets

  lemma {:induction false} SubsetSize<T>(a: set<T>, b: set<T>)
    requires a <= b
    ensures |a| <= |b|
  {
    assert b == a + (b - a);
  }

  lemma {:induction false} UnionSize<T>(a: set<T>, b: set<T>)
    ensures |a + b| <= |a| + |b|
  {
  }

  /** An injection into a set. */
  lemma {:induction false} InjectionSize(a: set<nat>, m: map<nat, nat>, b: set<nat>)
    requires forall x :: x in a ==> x in m && m[x] in b
    requires forall x, y :: x in a && y in a && m[x] == m[y] ==> x == y
    ensures |a| <= |b|
  {
    if x :| x in a {
      InjectionSize(a - {x}, m, b - {m[x]});
    }
  }

  /** The numbers below `n`. */
  function Below(n: nat): (s: set<nat>)
    ensures |s| == n && forall i :: i in s <==> 0 <= i < n
  {
    if n == 0 then {} else Below(n - 1) + {n - 1}
  }

  predicate NoDuplicates(s: seq<nat>) {
    forall i, j :: 0 <= i < j < |s| ==> s[i] != s[j]
  }

  ghost function Elements(s: seq<nat>): set<nat> {
    set b | b in s
  }

  lemma {:induction false} DistinctSize(s: seq<nat>)
    requires NoDuplicates(s)
    ensures |Elements(s)| == |s|
  {
    if s == [] {
      assert Elements(s) == {};
    } else {
      DistinctSize(s[1..]);
      assert Elements(s) == {s[0]} + Elements(s[1..]);
    }
  }
}
