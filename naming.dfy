/** Chunk file names: `chunk_` + the page number formatted with `05d` + `.parquet`. */
module Naming {
  import opened Frames

  predicate IsDigit(c: char)
  {
    '0' <= c <= '9'
  }

  predicate IsDigits(s: string)
  {
    forall i :: 0 <= i < |s| ==> IsDigit(s[i])
  }

  function DigitChar(d: nat): (c: char)
    requires d < 10
    ensures IsDigit(c)
  {
    ('0' as int + d) as char
  }

  function DigitValue(c: char): (d: nat)
    requires IsDigit(c)
    ensures d < 10 && DigitChar(d) == c
  {
    c as int - '0' as int
  }

  /** The decimal digits of `n`, most significant first, without leading zeros. */
  function Decimal(n: nat): (s: string)
    ensures 1 <= |s| && IsDigits(s)
    ensures |s| > 1 ==> s[0] != '0'
    decreases n
  {
    if n < 10 then [DigitChar(n)] else Decimal(n / 10) + [DigitChar(n % 10)]
  }

  /** The number a string of decimal digits denotes (the inverse of Decimal). */
  function ValueOf(s: string): nat
    requires IsDigits(s)
    decreases |s|
  {
    if s == [] then 0 else ValueOf(s[..|s| - 1]) * 10 + DigitValue(s[|s| - 1])
  }

  function Zeros(k: nat): (z: string)
    ensures |z| == k && IsDigits(z)
    ensures forall i :: 0 <= i < k ==> z[i] == '0'
  {
    seq(k, _ => '0')
  }

  /** Left-pad `s` with zeros to at least `width` characters. */
  function PadZeros(s: string, width: nat): (r: string)
    ensures |r| == if |s| < width then width else |s|
    ensures r[|r| - |s|..] == s
    ensures forall i :: 0 <= i < |r| - |s| ==> r[i] == '0'
  {
    if |s| < width then Zeros(width - |s|) + s else s
  }

  /** Python's `f"{n:05d}"` for a non-negative integer. */
  function Format05d(n: nat): string
  {
    PadZeros(Decimal(n), 5)
  }

  function Pow10(k: nat): nat
  {
    if k == 0 then 1 else 10 * Pow10(k - 1)
  }

  lemma {:induction false} ValueOfDecimal(n: nat)
    ensures ValueOf(Decimal(n)) == n
    decreases n
  {
    var s := Decimal(n);
    if n >= 10 {
      ValueOfDecimal(n / 10);
      assert s[..|s| - 1] == Decimal(n / 10);
    }
  }

  lemma {:induction false} ValueOfLeadingZeros(k: nat, s: string)
    requires IsDigits(s)
    ensures IsDigits(Zeros(k) + s) && ValueOf(Zeros(k) + s) == ValueOf(s)
    decreases |s| + k
  {
    var z := Zeros(k) + s;
    if s == [] {
      assert z == Zeros(k);
      if k > 0 {
        assert z[..|z| - 1] == Zeros(k - 1) + [];
        ValueOfLeadingZeros(k - 1, []);
      }
    } else {
      assert z[..|z| - 1] == Zeros(k) + s[..|s| - 1];
      ValueOfLeadingZeros(k, s[..|s| - 1]);
    }
  }

  /** Every positive power of ten is at least ten. */
  lemma Pow10AtLeastTen(k: nat)
    requires k >= 1
    ensures Pow10(k) >= 10
  {
  }

  /** `Decimal(n)` has at most `k` digits exactly when `n < 10^k`. */
  lemma {:induction false} DecimalLength(n: nat, k: nat)
    requires k >= 1
    ensures |Decimal(n)| <= k <==> n < Pow10(k)
    decreases n
  {
    Pow10AtLeastTen(k);
    if n >= 10 {
      if k == 1 {
        assert |Decimal(n)| == |Decimal(n / 10)| + 1;
      } else {
        DecimalLength(n / 10, k - 1);
        assert n < Pow10(k) <==> n / 10 < Pow10(k - 1);
      }
    }
  }

  /** Formatting with `05d` encodes the number: it reads back as `n`, and it is
      exactly five characters wide for page numbers below 100000. */
  lemma Format05dSpec(n: nat)
    ensures IsDigits(Format05d(n)) && ValueOf(Format05d(n)) == n
    ensures |Format05d(n)| >= 5
    ensures |Format05d(n)| == 5 <==> n < 100000
  {
    var d := Decimal(n);
    ValueOfDecimal(n);
    if |d| < 5 {
      ValueOfLeadingZeros(5 - |d|, d);
    }
    DecimalLength(n, 5);
    assert Pow10(5) == 100000;
  }

  const CHUNK_PREFIX: string := "chunk_"
  const CHUNK_SUFFIX: string := ".parquet"

  /** The file name of page `pageNo`, `chunk_{page_no:05d}.parquet`. */
  function ChunkName(pageNo: nat): string
  {
    CHUNK_PREFIX + Format05d(pageNo) + CHUNK_SUFFIX
  }

  /** Reads the page number back out of a chunk file name. */
  function ParseChunkName(name: string): Option<nat>
  {
    var lo, hi := |CHUNK_PREFIX|, |name| - |CHUNK_SUFFIX|;
    if lo + 5 <= hi && name[..lo] == CHUNK_PREFIX && name[hi..] == CHUNK_SUFFIX
       && IsDigits(name[lo..hi])
    then Some(ValueOf(name[lo..hi]))
    else None
  }

  /** A chunk name carries its page number, padded to at least five digits. */
  lemma ChunkNameRoundTrip(pageNo: nat)
    ensures ParseChunkName(ChunkName(pageNo)) == Some(pageNo)
    ensures |ChunkName(pageNo)| >= |CHUNK_PREFIX| + 5 + |CHUNK_SUFFIX|
    ensures pageNo < 100000 <==> |ChunkName(pageNo)| == |CHUNK_PREFIX| + 5 + |CHUNK_SUFFIX|
  {
    var f := Format05d(pageNo);
    Format05dSpec(pageNo);
    var name := ChunkName(pageNo);
    var lo, hi := |CHUNK_PREFIX|, |name| - |CHUNK_SUFFIX|;
    assert name[..lo] == CHUNK_PREFIX;
    assert name[hi..] == CHUNK_SUFFIX;
    assert name[lo..hi] == f;
  }

  /** A chunk name is `chunk_`, at least five digits, then `.parquet`. */
  lemma ChunkNameShape(pageNo: nat)
    ensures var name := ChunkName(pageNo);
            && |name| >= |CHUNK_PREFIX| + 5 + |CHUNK_SUFFIX|
            && name[..|CHUNK_PREFIX|] == CHUNK_PREFIX
            && name[|name| - |CHUNK_SUFFIX|..] == CHUNK_SUFFIX
            && IsDigits(name[|CHUNK_PREFIX|..|name| - |CHUNK_SUFFIX|])
  {
    ChunkNameRoundTrip(pageNo);
  }

  /** Distinct page numbers give distinct file names. */
  lemma ChunkNameInjective(m: nat, n: nat)
    ensures ChunkName(m) == ChunkName(n) <==> m == n
  {
    ChunkNameRoundTrip(m);
    ChunkNameRoundTrip(n);
  }
}
