/** Ten-bit samples in 16-bit words: the bit string the words form, and the samples in it. */
module PixelFields {
  import opened Common
  import opened Bits

  type Word16 = w: int | 0 <= w < 0x1_0000

  type Word32 = w: int | 0 <= w < 0x1_0000_0000

  /** Bit b of words read least significant bit first. */
  function BitAt(t: seq<Word16>, b: nat): Bit
    requires b / 16 < |t|
  {
    t[b / 16] / Pow2(b % 16) % 2
  }

  /** n bits from bit b on, the first the least significant. */
  function Field(t: seq<Word16>, b: nat, n: nat): nat
    requires b + n <= 16 * |t|
    decreases n
  {
    if n == 0 then 0 else BitAt(t, b) + 2 * Field(t, b + 1, n - 1)
  }

  /** The ten-bit sample number k. */
  function Sample(t: seq<Word16>, k: nat): nat
    requires 10 * k + 10 <= 16 * |t|
  {
    Field(t, 10 * k, 10)
  }

  // ---------------------------------------------------------------------------------------------
  // Fields by shifts and masks
  // ---------------------------------------------------------------------------------------------

  lemma Pow2Next(n: nat)
    ensures Pow2(n + 1) == 2 * Pow2(n) && Pow2(0) == 1
  {
  }

  lemma FieldNone(t: seq<Word16>, b: nat)
    requires b <= 16 * |t|
    ensures Field(t, b, 0) == 0
  {
  }

  lemma FieldOne(t: seq<Word16>, b: nat, n: nat)
    requires b + n + 1 <= 16 * |t|
    ensures Field(t, b, n + 1) == BitAt(t, b) + 2 * Field(t, b + 1, n)
  {
    hide BitAt;
  }

  lemma BitIs(t: seq<Word16>, i: nat, s: nat)
    requires i < |t| && s < 16
    ensures BitAt(t, 16 * i + s) == t[i] / Pow2(s) % 2
  {
    assert (16 * i + s) / 16 == i && (16 * i + s) % 16 == s;
    hide Pow2;
  }

  /** The lowest bit and the rest of a number cut to n + 1 bits. */
  lemma CutBits(v: nat, d: nat)
    requires d >= 1
    ensures v % (2 * d) == v % 2 + 2 * (v / 2 % d)
  {
    HalfMod(v, d);
    var x := v % (2 * d);
    assert x == x % 2 + 2 * (x / 2);
  }

  lemma {:induction false} FieldInWord(t: seq<Word16>, i: nat, s: nat, n: nat)
    requires i < |t| && s + n <= 16
    ensures Field(t, 16 * i + s, n) == t[i] / Pow2(s) % Pow2(n)
    decreases n
  {
    hide *;
    Pow2Next(s);
    if n == 0 {
      FieldNone(t, 16 * i + s);
      assert t[i] / Pow2(s) % 1 == 0;
    } else {
      FieldInWord(t, i, s + 1, n - 1);
      FieldOne(t, 16 * i + s, n - 1);
      assert 16 * i + s + 1 == 16 * i + (s + 1);
      BitIs(t, i, s);
      DivDiv(t[i], Pow2(s));
      Pow2Next(n - 1);
      CutBits(t[i] / Pow2(s), Pow2(n - 1));
    }
  }

  lemma {:induction false} FieldSplit(t: seq<Word16>, b: nat, m: nat, n: nat)
    requires b + m + n <= 16 * |t|
    ensures Field(t, b, m + n) == Field(t, b, m) + Pow2(m) * Field(t, b + m, n)
    decreases m
  {
    hide *;
    if m == 0 {
      FieldNone(t, b);
      Pow2Next(0);
    } else {
      FieldSplit(t, b + 1, m - 1, n);
      FieldOne(t, b, m + n - 1);
      FieldOne(t, b, m - 1);
      Pow2Next(m - 1);
      DoubleTimes(Pow2(m - 1), Field(t, b + m, n));
    }
  }

  lemma DoubleTimes(p: nat, v: nat)
    ensures 2 * (p * v) == (2 * p) * v
  {
  }

  /** A field over a word boundary: the rest of one word below the beginning of the next. */
  lemma FieldOver(t: seq<Word16>, i: nat, s: nat, n: nat)
    requires i + 1 < |t| && s < 16 < s + n && n <= 16
    ensures Field(t, 16 * i + s, n) == t[i] / Pow2(s) + Pow2(16 - s) * (t[i + 1] % Pow2(s + n - 16))
  {
    hide Field;
    FieldSplit(t, 16 * i + s, 16 - s, s + n - 16);
    FieldInWord(t, i, s, 16 - s);
    FieldInWord(t, i + 1, 0, s + n - 16);
    TopOfWord(t[i], s);
    assert Pow2(0) == 1 && t[i + 1] / 1 == t[i + 1];
    assert 16 * i + s + (16 - s) == 16 * (i + 1) + 0;
  }

  lemma Pow2Of16()
    ensures Pow2(10) == 0x400 && Pow2(16) == 0x1_0000
  {
    assert Pow2(4) == 16 && Pow2(8) == 256;
    Pow2Add(8, 2);
    Pow2Add(8, 8);
  }

  lemma TopOfWord(w: Word16, s: nat)
    requires s <= 16
    ensures w / Pow2(s) < Pow2(16 - s) && w / Pow2(s) % Pow2(16 - s) == w / Pow2(s)
  {
    hide *;
    Pow2Of16();
    Pow2Add(s, 16 - s);
    Below(w, Pow2(s), Pow2(16 - s));
  }

  lemma Below(w: nat, p: nat, q: nat)
    requires p >= 1 && q >= 1 && w < p * q
    ensures w / p < q && w / p % q == w / p
  {
    var v := w / p;
    assert w == p * v + w % p;
    if v >= q {
      MulLessOrEqual(p, q, v);
    }
    DivUnique(v, q, 0, v);
  }

  /** A sample inside one word, and one over a boundary. */
  lemma SampleIs(t: seq<Word16>, k: nat)
    requires 10 * k + 10 <= 16 * |t|
    ensures var u, s := 10 * k / 16, 10 * k % 16;
            && u < |t| && (s > 6 ==> u + 1 < |t|)
            && Sample(t, k) == if s <= 6 then t[u] / Pow2(s) % 0x400
                               else t[u] / Pow2(s) + Pow2(16 - s) * (t[u + 1] % Pow2(s - 6))
  {
    Pow2Of16();
    hide Field, Pow2;
    var u, s := 10 * k / 16, 10 * k % 16;
    assert 10 * k == 16 * u + s;
    if s <= 6 {
      FieldInWord(t, u, s, 10);
    } else {
      FieldOver(t, u, s, 10);
    }
  }

  /** Masking the sum of the two shifted words does the same. */
  lemma MaskedSum(low: nat, high: nat, s: nat)
    requires 6 < s < 16 && low < Pow2(16 - s)
    ensures (low + Pow2(16 - s) * high) % 0x400 == low + Pow2(16 - s) * (high % Pow2(s - 6))
  {
    hide *;
    Pow2Of16();
    Pow2Add(16 - s, s - 6);
    assert 16 - s + (s - 6) == 10;
    CutSum(low, high, Pow2(16 - s), Pow2(s - 6), 0x400);
  }

  lemma CutSum(low: nat, high: nat, p: nat, m: nat, n: nat)
    requires low < p && m >= 1 && n == p * m
    ensures (low + p * high) % n == low + p * (high % m)
  {
    var q, r := high / m, high % m;
    assert high == m * q + r;
    assert p * high == p * (m * q) + p * r && p * (m * q) == n * q;
    MulLessOrEqual(p, r, m - 1);
    assert p * (m - 1) == n - p;
    DivUnique(low + p * high, n, q, low + p * r);
  }

  lemma {:induction false} FieldDrop(t: seq<Word16>, a: nat, b: nat, n: nat)
    requires a <= |t| && b + n <= 16 * (|t| - a)
    ensures Field(t[a..], b, n) == Field(t, 16 * a + b, n)
    decreases n
  {
    if n > 0 {
      FieldDrop(t, a, b + 1, n - 1);
      assert (16 * a + b) / 16 == a + b / 16 && (16 * a + b) % 16 == b % 16;
    }
  }

  /** Sixteen samples of a block fill ten words. */
  lemma SampleOfBlock(t: seq<Word16>, block: nat, k: nat)
    requires 10 * block + 10 <= |t| && k < 16
    ensures Sample(t[10 * block..10 * block + 10], k) == Sample(t, 16 * block + k)
  {
    hide Field;
    var cut := t[..10 * block + 10];
    assert t[10 * block..10 * block + 10] == cut[10 * block..];
    assert 16 * (10 * block) + 10 * k == 160 * block + 10 * k == 10 * (16 * block + k);
    FieldDrop(cut, 10 * block, 10 * k, 10);
    FieldPrefix(cut, t, 160 * block + 10 * k, 10);
  }

  lemma {:induction false} FieldPrefix(s: seq<Word16>, t: seq<Word16>, b: nat, n: nat)
    requires s <= t && b + n <= 16 * |s|
    ensures Field(s, b, n) == Field(t, b, n)
    decreases n
  {
    if n > 0 {
      FieldPrefix(s, t, b + 1, n - 1);
    }
  }
}
