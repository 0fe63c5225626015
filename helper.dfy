/** The transformation primitives of helper.go. Go's math/rand is replaced by
    explicit choices: a coin per scan position for the vowel scans (a missing
    coin reads as tails), a chosen number `k` for the digit edits, a band in
    {0, 1, 2} for the Set* dispatchers and the Fisher-Yates swap indices for
    the shuffle. */
module Helper {
  import opened Chars

  /** The separator the default suggestors insert. */
  const Separator: byte := 46

  /** The number of entries of the byteNumbers table. */
  const ByteNumbersCount: nat := 1000

  /** byteNumbers[k]: the decimal rendering of k. */
  function ByteNumber(k: nat): Bytes
    requires k < ByteNumbersCount
  {
    Decimal(k)
  }

  // ---------------------------------------------------------------------
  // DoubleByte

  method DoubleByte(b: byte) returns (r: Bytes)
    ensures r == [b, b]
  {
    var twin := 2;
    var result := new byte[twin];
    var i := 0;
    while i < twin && i < result.Length
      invariant 0 <= i <= twin
      invariant forall j :: 0 <= j < i ==> result[j] == b
    {
      result[i] := b;
      i := i + 1;
    }
    r := result[..];
  }

  // ---------------------------------------------------------------------
  // The vowel scans: walk left to right, flip a coin at every eligible
  // vowel and act on the first one whose coin is heads; if none is, act on
  // the last eligible vowel.

  /** The coin flipped at scan position i; positions past the oracle read as tails. */
  predicate Heads(coins: seq<bool>, i: nat) {
    i < |coins| && coins[i]
  }

  /** A vowel the scan may act on; VanishVowel skips position 0. */
  predicate Eligible(s: Bytes, skipInitial: bool, i: nat)
    requires i < |s|
  {
    IsVowel(s[i]) && !(skipInitial && i == 0)
  }

  predicate HasEligible(s: Bytes, skipInitial: bool) {
    exists i :: 0 <= i < |s| && Eligible(s, skipInitial, i)
  }

  /** The first eligible position at or after `from` whose coin is heads, or |s|. */
  function FirstHeads(s: Bytes, coins: seq<bool>, skipInitial: bool, from: nat): (i: nat)
    requires from <= |s|
    ensures from <= i <= |s|
    ensures i < |s| ==> Eligible(s, skipInitial, i) && Heads(coins, i)
    ensures forall j :: from <= j < i ==> !(Eligible(s, skipInitial, j) && Heads(coins, j))
    decreases |s| - from
  {
    if from == |s| then |s|
    else if Eligible(s, skipInitial, from) && Heads(coins, from) then from
    else FirstHeads(s, coins, skipInitial, from + 1)
  }

  /** The last eligible position below n, or -1. */
  function LastEligible(s: Bytes, skipInitial: bool, n: nat): (i: int)
    requires n <= |s|
    ensures -1 <= i < n
    ensures i >= 0 ==> Eligible(s, skipInitial, i)
    ensures forall j :: i < j < n ==> !Eligible(s, skipInitial, j)
  {
    if n == 0 then -1
    else if Eligible(s, skipInitial, n - 1) then n - 1
    else LastEligible(s, skipInitial, n - 1)
  }

  /** The position the scan acts on, -1 when there is none. */
  function Chosen(s: Bytes, coins: seq<bool>, skipInitial: bool): (i: int)
    ensures -1 <= i < |s|
    ensures i == -1 <==> !HasEligible(s, skipInitial)
    ensures i >= 0 ==> Eligible(s, skipInitial, i)
    ensures i >= 0 && Heads(coins, i) ==>
              forall j :: 0 <= j < i ==> !(Eligible(s, skipInitial, j) && Heads(coins, j))
    ensures i >= 0 && !Heads(coins, i) ==>
              (forall j :: 0 <= j < |s| ==> !(Eligible(s, skipInitial, j) && Heads(coins, j)))
              && (forall j :: i < j < |s| ==> !Eligible(s, skipInitial, j))
  {
    var f := FirstHeads(s, coins, skipInitial, 0);
    if f < |s| then f else LastEligible(s, skipInitial, |s|)
  }

  /** What VanishVowel returns: the chosen vowel (never the first byte) removed. */
  function VanishedVowel(s: Bytes, coins: seq<bool>): Bytes {
    var i := Chosen(s, coins, true);
    if i < 0 then s else s[..i] + s[i + 1..]
  }

  /** Exactly one vowel past the first byte disappears, when there is one. */
  lemma VanishVowelShape(s: Bytes, coins: seq<bool>)
    ensures !HasEligible(s, true) ==> VanishedVowel(s, coins) == s
    ensures HasEligible(s, true) ==>
              |VanishedVowel(s, coins)| == |s| - 1 &&
              exists i :: 0 < i < |s| && IsVowel(s[i]) && VanishedVowel(s, coins) == s[..i] + s[i + 1..]
  {
    var i := Chosen(s, coins, true);
    if i >= 0 {
      RemovedAt(s, i, VanishedVowel(s, coins));
    }
  }

  /** Removing the vowel s[i], which is not the first byte. */
  lemma RemovedAt(s: Bytes, i: nat, r: Bytes)
    requires 0 < i < |s| && IsVowel(s[i]) && r == s[..i] + s[i + 1..]
    ensures |r| == |s| - 1
    ensures exists i :: 0 < i < |s| && IsVowel(s[i]) && r == s[..i] + s[i + 1..]
  {
  }

  method VanishVowel(s: Bytes, coins: seq<bool>) returns (r: Bytes)
    ensures r == VanishedVowel(s, coins)
  {
    var b := s;
    var lastVowelIndex := -1;
    var idx := 0;
    while idx < |b|
      invariant 0 <= idx <= |s| && b == s
      invariant lastVowelIndex == LastEligible(s, true, idx)
      invariant FirstHeads(s, coins, true, 0) >= idx
    {
      var c := b[idx];
      if IsVowel(c) && idx != 0 {
        lastVowelIndex := idx;
        if Heads(coins, idx) {
          assert Chosen(s, coins, true) == idx;
          b := b[..idx] + b[idx + 1..];
          return b;
        }
      }
      idx := idx + 1;
    }
    assert Chosen(s, coins, true) == lastVowelIndex;
    if lastVowelIndex > 0 {
      b := b[..lastVowelIndex] + b[lastVowelIndex + 1..];
    }
    r := b;
  }

  /** What VowelTransform returns: f applied to the chosen vowel. Without a
      vowel the source indexes b[-1] and panics, hence the precondition. */
  function TransformedVowel(s: Bytes, coins: seq<bool>, f: byte -> byte): Bytes
    requires HasEligible(s, false)
  {
    var i := Chosen(s, coins, false);
    s[i := f(s[i])]
  }

  /** Exactly one vowel is rewritten; length and every other byte are kept. */
  lemma VowelTransformShape(s: Bytes, coins: seq<bool>, f: byte -> byte)
    requires HasEligible(s, false)
    ensures |TransformedVowel(s, coins, f)| == |s|
    ensures exists i :: 0 <= i < |s| && IsVowel(s[i]) && TransformedVowel(s, coins, f) == s[i := f(s[i])]
  {
    var i := Chosen(s, coins, false);
    RewrittenAt(s, i, f, TransformedVowel(s, coins, f));
  }

  /** Rewriting the vowel s[i] with f. */
  lemma RewrittenAt(s: Bytes, i: nat, f: byte -> byte, r: Bytes)
    requires i < |s| && IsVowel(s[i]) && r == s[i := f(s[i])]
    ensures |r| == |s|
    ensures exists i :: 0 <= i < |s| && IsVowel(s[i]) && r == s[i := f(s[i])]
  {
  }

  method VowelTransform(s: Bytes, coins: seq<bool>, f: byte -> byte) returns (r: Bytes)
    requires HasEligible(s, false)
    ensures r == TransformedVowel(s, coins, f)
  {
    var b := new byte[|s|](j requires 0 <= j < |s| => s[j]);
    var lastVowelIndex := -1;
    var vowel: byte := 0;
    var i := 0;
    while i < b.Length
      invariant 0 <= i <= b.Length && b[..] == s
      invariant lastVowelIndex == LastEligible(s, false, i)
      invariant lastVowelIndex >= 0 ==> vowel == s[lastVowelIndex]
      invariant FirstHeads(s, coins, false, 0) >= i
    {
      if IsVowel(b[i]) {
        lastVowelIndex := i;
        vowel := b[i];
        if Heads(coins, i) {
          assert Chosen(s, coins, false) == i;
          b[i] := f(vowel);
          return b[..];
        }
      }
      i := i + 1;
    }
    assert Chosen(s, coins, false) == lastVowelIndex;
    if s == b[..] {
      b[lastVowelIndex] := f(vowel);
    }
    r := b[..];
  }

  /** What RepeatVowel returns: a copy of the chosen vowel inserted right after it. */
  function RepeatedVowel(s: Bytes, coins: seq<bool>): Bytes {
    var i := Chosen(s, coins, false);
    if i < 0 then s else s[..i + 1] + s[i..]
  }

  /** With a vowel present, one vowel is followed by a copy of itself. */
  lemma RepeatVowelShape(s: Bytes, coins: seq<bool>)
    ensures !HasEligible(s, false) ==> RepeatedVowel(s, coins) == s
    ensures HasEligible(s, false) ==>
              |RepeatedVowel(s, coins)| == |s| + 1 &&
              exists i :: 0 <= i < |s| && IsVowel(s[i]) && RepeatedVowel(s, coins) == s[..i + 1] + [s[i]] + s[i + 1..]
  {
    var i := Chosen(s, coins, false);
    if i >= 0 {
      DuplicatedAt(s, i, RepeatedVowel(s, coins));
    }
  }

  /** Inserting a copy of the vowel s[i] right after it. */
  lemma DuplicatedAt(s: Bytes, i: nat, r: Bytes)
    requires i < |s| && IsVowel(s[i]) && r == s[..i + 1] + s[i..]
    ensures |r| == |s| + 1
    ensures exists i :: 0 <= i < |s| && IsVowel(s[i]) && r == s[..i + 1] + [s[i]] + s[i + 1..]
  {
    assert s[i..] == [s[i]] + s[i + 1..];
    assert r == s[..i + 1] + [s[i]] + s[i + 1..];
  }

  method RepeatVowel(s: Bytes, coins: seq<bool>) returns (r: Bytes)
    ensures r == RepeatedVowel(s, coins)
  {
    var b := s;
    var lastVowelIndex := -1;
    var idx := 0;
    while idx < |b|
      invariant 0 <= idx <= |s| && b == s
      invariant lastVowelIndex == LastEligible(s, false, idx)
      invariant FirstHeads(s, coins, false, 0) >= idx
    {
      var c := b[idx];
      if IsVowel(c) {
        lastVowelIndex := idx;
        if Heads(coins, idx) {
          assert Chosen(s, coins, false) == idx;
          b := b[..idx + 1] + b[idx..];
          return b;
        }
      }
      idx := idx + 1;
    }
    assert Chosen(s, coins, false) == lastVowelIndex;
    if lastVowelIndex >= 0 {
      b := b[..lastVowelIndex + 1] + b[lastVowelIndex..];
    }
    r := b;
  }

  // ---------------------------------------------------------------------
  // AlphabetTransform

  /** What AlphabetTransform returns: f applied to every byte. */
  function MappedBytes(s: Bytes, f: byte -> byte): Bytes {
    seq(|s|, i requires 0 <= i < |s| => f(s[i]))
  }

  method AlphabetTransform(s: Bytes, f: byte -> byte) returns (r: Bytes)
    ensures r == MappedBytes(s, f)
    ensures |r| == |s| && forall i :: 0 <= i < |s| ==> r[i] == f(s[i])
    ensures (forall c :: f(c) == c) ==> r == s
  {
    var b := new byte[|s|](j requires 0 <= j < |s| => s[j]);
    var i := 0;
    while i < b.Length
      invariant 0 <= i <= b.Length == |s|
      invariant forall j :: 0 <= j < i ==> b[j] == f(s[j])
      invariant forall j :: i <= j < b.Length ==> b[j] == s[j]
    {
      b[i] := f(b[i]);
      i := i + 1;
    }
    r := b[..];
  }

  // ---------------------------------------------------------------------
  // Fixed-position edits. Each slices the first or last byte, so each needs a
  // non-empty input.

  /** Duplicates the byte at the midpoint |s|/2. */
  function RepeatSubfix(s: Bytes): (r: Bytes)
    requires |s| > 0
    ensures |r| == |s| + 1
    ensures r[|s| / 2] == r[|s| / 2 + 1] == s[|s| / 2]
    ensures r[..|s| / 2 + 1] + r[|s| / 2 + 2..] == s
  {
    var m := |s| / 2;
    var r := s[..m + 1] + s[m..];
    assert r[..m + 1] == s[..m + 1] && r[m + 2..] == s[m + 1..];
    r
  }

  /** Prepends a copy of the first byte. */
  function RepeatPrefix(s: Bytes): (r: Bytes)
    requires |s| > 0
    ensures |r| == |s| + 1 && r[0] == s[0] && r[1..] == s
  {
    s[..1] + s
  }

  /** Appends a copy of the last byte. */
  function RepeatSuffix(s: Bytes): (r: Bytes)
    requires |s| > 0
    ensures |r| == |s| + 1 && r[..|s|] == s && r[|s|] == s[|s| - 1]
  {
    s + s[|s| - 1..]
  }

  /** Inserts sep right after the first byte. */
  function SetPostInitialSep(s: Bytes, sep: byte): (r: Bytes)
    requires |s| > 0
    ensures |r| == |s| + 1 && r[0] == s[0] && r[1] == sep
    ensures r[..1] + r[2..] == s
  {
    var r := s[..1] + [sep] + s[1..];
    assert r[2..] == s[1..];
    r
  }

  /** Inserts sep right before the last byte. */
  function SetPenultimateSep(s: Bytes, sep: byte): (r: Bytes)
    requires |s| > 0
    ensures |r| == |s| + 1 && r[|s| - 1] == sep && r[|s|] == s[|s| - 1]
    ensures r[..|s| - 1] + r[|s|..] == s
  {
    var last := s[|s| - 1];
    var r := s[..|s| - 1] + [sep] + [last];
    assert r[..|s| - 1] == s[..|s| - 1];
    r
  }

  /** Appends sep and the digit d. */
  function SetPenultimateSepDigit(s: Bytes, sep: byte, d: nat): (r: Bytes)
    requires d < 10
    ensures |r| == |s| + 2 && r[..|s|] == s && r[|s|] == sep
    ensures AllDigits(r[|s| + 1..]) && ParseDecimal(r[|s| + 1..]) == d
  {
    var r := s + [sep, DigitByte(d)];
    assert r[|s| + 1..] == [DigitByte(d)];
    assert [DigitByte(d)][..0] == [];
    r
  }

  /** Appends the digit d and sep, then moves those two bytes to the front:
      the result is d, sep, s. (Its doc comment says after the first byte; the
      code and its test put them at the front.) */
  function SetPostInitialSepDigit(s: Bytes, sep: byte, d: nat): (r: Bytes)
    requires d < 10
    ensures |r| == |s| + 2 && r[1] == sep && r[2..] == s
    ensures AllDigits(r[..1]) && ParseDecimal(r[..1]) == d
  {
    var b := s + [DigitByte(d), sep];
    var r := b[|b| - 2..] + b[..|b| - 2];
    assert b[|b| - 2..] == [DigitByte(d), sep] && b[..|b| - 2] == s;
    assert r[..1] == [DigitByte(d)] && [DigitByte(d)][..0] == [];
    r
  }

  /** Appends sep and the rendering of k, a number below nRange. */
  function SepWithRandomDigit(s: Bytes, sep: byte, nRange: int, k: nat): (r: Bytes)
    requires k < nRange && k < ByteNumbersCount
    ensures |r| == |s| + 1 + |Decimal(k)| && r[..|s|] == s && r[|s|] == sep
    ensures AllDigits(r[|s| + 1..]) && ParseDecimal(r[|s| + 1..]) == k
  {
    var r := s + [sep] + ByteNumber(k);
    assert r[|s| + 1..] == Decimal(k);
    DecimalRoundTrip(k);
    r
  }

  /** Prepends a copy of the first byte and appends the rendering of k < nRange. */
  function RepeatInitialAppendDigit(s: Bytes, nRange: int, k: nat): (r: Bytes)
    requires |s| > 0 && k < nRange && k < ByteNumbersCount
    ensures |r| == |s| + 1 + |Decimal(k)| && r[0] == s[0] && r[1..|s| + 1] == s
    ensures AllDigits(r[|s| + 1..]) && ParseDecimal(r[|s| + 1..]) == k
  {
    var r := s[..1] + s + ByteNumber(k);
    assert r[1..|s| + 1] == s && r[|s| + 1..] == Decimal(k);
    DecimalRoundTrip(k);
    r
  }

  /** The number of digits PrefixRandomDigit moves to the front. */
  function Place(nRange: int): nat {
    if 10 < nRange <= 100 then 2 else if 100 < nRange <= 1000 then 3 else 1
  }

  /** The smallest number PrefixRandomDigit draws. */
  function PrefixLower(nRange: int): nat {
    if 10 < nRange <= 100 then 10 else if 100 < nRange <= 1000 then 100 else 0
  }

  /** Appends the rendering of k (drawn from [PrefixLower(nRange), nRange))
      and rotates its last Place(nRange) bytes to the front. For nRange up to
      1000 the rendering has exactly that many digits, so the number ends up
      in front of s. */
  function PrefixRandomDigit(s: Bytes, nRange: int, k: nat): (r: Bytes)
    requires PrefixLower(nRange) <= k < nRange && k < ByteNumbersCount
    ensures |r| == |s| + |Decimal(k)|
    ensures nRange <= 1000 ==> r == Decimal(k) + s
    ensures nRange <= 1000 ==> ParseDecimal(r[..|Decimal(k)|]) == k && r[|Decimal(k)|..] == s
    ensures nRange > 1000 ==>
              r == Decimal(k)[|Decimal(k)| - 1..] + s + Decimal(k)[..|Decimal(k)| - 1]
  {
    var place := Place(nRange);
    var b := s + ByteNumber(k);
    DecimalWidth(k);
    DecimalRoundTrip(k);
    var r := b[|b| - place..] + b[..|b| - place];
    assert |Decimal(k)| == place ==> b[|b| - place..] == Decimal(k) && b[..|b| - place] == s;
    assert place == 1 ==> b[|b| - 1..] == Decimal(k)[|Decimal(k)| - 1..]
                          && b[..|b| - 1] == s + Decimal(k)[..|Decimal(k)| - 1];
    r
  }

  /** Appends the rendering of k < nRange. */
  function SuffixRandomDigit(s: Bytes, nRange: int, k: nat): (r: Bytes)
    requires k < nRange && k < ByteNumbersCount
    ensures |r| == |s| + |Decimal(k)| && r[..|s|] == s
    ensures AllDigits(r[|s|..]) && ParseDecimal(r[|s|..]) == k
  {
    var r := s + ByteNumber(k);
    assert r[|s|..] == Decimal(k);
    DecimalRoundTrip(k);
    r
  }

  /** The range the Set* dispatchers pass for the band drawn by rand.Intn(3). */
  function BandRange(band: nat): int {
    if band == 0 then 1000 else if band == 1 then 100 else 10
  }

  function SetPrefixRandomDigit(s: Bytes, band: nat, k: nat): (r: Bytes)
    requires band < 3 && PrefixLower(BandRange(band)) <= k < BandRange(band)
    ensures r == Decimal(k) + s
    ensures band == 0 ==> |Decimal(k)| == 3
    ensures band == 1 ==> |Decimal(k)| == 2
    ensures band == 2 ==> |Decimal(k)| == 1
  {
    DecimalWidth(k);
    if band == 0 then PrefixRandomDigit(s, 1000, k)
    else if band == 1 then PrefixRandomDigit(s, 100, k)
    else PrefixRandomDigit(s, 10, k)
  }

  function SetSuffixRandomDigit(s: Bytes, band: nat, k: nat): (r: Bytes)
    requires band < 3 && k < BandRange(band)
    ensures r == s + Decimal(k)
    ensures 1 <= |r| - |s| <= 3
  {
    DecimalWidth(k);
    if band == 0 then SuffixRandomDigit(s, 1000, k)
    else if band == 1 then SuffixRandomDigit(s, 100, k)
    else SuffixRandomDigit(s, 10, k)
  }

  function SetSepWithRandomDigit(s: Bytes, band: nat, k: nat): (r: Bytes)
    requires band < 3 && k < BandRange(band)
    ensures r == s + [Separator] + Decimal(k)
    ensures 2 <= |r| - |s| <= 4
  {
    DecimalWidth(k);
    if band == 0 then SepWithRandomDigit(s, Separator, 1000, k)
    else if band == 1 then SepWithRandomDigit(s, Separator, 100, k)
    else SepWithRandomDigit(s, Separator, 10, k)
  }

  // ---------------------------------------------------------------------
  // SwapTwoChars

  function Swapped<T>(s: seq<T>, i: nat, j: nat): seq<T>
    requires i < |s| && j < |s|
  {
    s[i := s[j]][j := s[i]]
  }

  /** A swap changes the two positions and nothing else, and keeps the bytes. */
  lemma SwappedPermutes<T>(s: seq<T>, i: nat, j: nat)
    requires i < |s| && j < |s|
    ensures |Swapped(s, i, j)| == |s| && Swapped(s, i, j)[i] == s[j] && Swapped(s, i, j)[j] == s[i]
    ensures forall k :: 0 <= k < |s| && k != i && k != j ==> Swapped(s, i, j)[k] == s[k]
    ensures multiset(Swapped(s, i, j)) == multiset(s)
  {
    MultisetOfSwapped(s, i, j);
  }

  /** A swap keeps the multiset of elements. */
  lemma MultisetOfSwapped<T>(s: seq<T>, i: nat, j: nat)
    requires i < |s| && j < |s|
    ensures multiset(Swapped(s, i, j)) == multiset(s)
  {
    if i != j {
      assert multiset(s[i := s[j]]) == multiset(s) - multiset{s[i]} + multiset{s[j]};
    }
  }

  /** What SwapTwoChars returns: inputs shorter than 3 bytes are kept; else the
      last two bytes are swapped when they differ, the two middle bytes when
      the length is even, and the bytes at n/3 and 2(n/3) otherwise. */
  function SwappedTwoChars(s: Bytes): Bytes {
    var n := |s|;
    if n < 3 then s
    else if s[n - 1] != s[n - 2] then Swapped(s, n - 1, n - 2)
    else if n % 2 == 0 then Swapped(s, n / 2 - 1, n / 2)
    else Swapped(s, n / 3, 2 * (n / 3))
  }

  /** SwapTwoChars keeps the length and the bytes, and leaves inputs shorter
      than 3 bytes alone. */
  lemma SwapTwoCharsPermutes(s: Bytes)
    ensures |SwappedTwoChars(s)| == |s| && multiset(SwappedTwoChars(s)) == multiset(s)
    ensures |s| < 3 ==> SwappedTwoChars(s) == s
  {
    var n := |s|;
    if n < 3 {
    } else if s[n - 1] != s[n - 2] {
      SwappedPermutes(s, n - 1, n - 2);
    } else if n % 2 == 0 {
      SwappedPermutes(s, n / 2 - 1, n / 2);
    } else {
      SwappedPermutes(s, n / 3, 2 * (n / 3));
    }
  }

  method SwapTwoChars(s: Bytes) returns (r: Bytes)
    ensures r == SwappedTwoChars(s)
  {
    var b := new byte[|s|](j requires 0 <= j < |s| => s[j]);
    if b.Length < 3 {
      return s;
    }
    var n := b.Length;
    if b[n - 1] != b[n - 2] {
      b[n - 1], b[n - 2] := b[n - 2], b[n - 1];
    } else if n % 2 == 0 {
      var mid := n / 2;
      b[mid - 1], b[mid] := b[mid], b[mid - 1];
    } else {
      var oneThird := n / 3;
      var twoThirds := 2 * oneThird;
      b[oneThird], b[twoThirds] := b[twoThirds], b[oneThird];
    }
    r := b[..];
  }

  // ---------------------------------------------------------------------
  // shuffleSuggestors: rand.Shuffle is Fisher-Yates from the top; step k
  // swaps position n-1-k with swaps[k], which lies in [0, n-1-k].

  predicate ValidSwaps(n: nat, swaps: seq<nat>) {
    |swaps| == (if n == 0 then 0 else n - 1) &&
    forall k :: 0 <= k < |swaps| ==> swaps[k] <= n - 1 - k
  }

  /** The swaps from step k onwards applied to s, which the first k steps
      have already produced. */
  function FisherYates<T>(s: seq<T>, swaps: seq<nat>, k: nat): (r: seq<T>)
    requires ValidSwaps(|s|, swaps) && k <= |swaps|
    ensures |r| == |s|
    decreases |swaps| - k
  {
    if k == |swaps| then s
    else FisherYates(Swapped(s, |s| - 1 - k, swaps[k]), swaps, k + 1)
  }

  /** Whatever the swap choices, the remaining steps only permute. */
  lemma {:induction false} FisherYatesPermutes<T>(s: seq<T>, swaps: seq<nat>, k: nat)
    requires ValidSwaps(|s|, swaps) && k <= |swaps|
    ensures multiset(FisherYates(s, swaps, k)) == multiset(s)
    decreases |swaps| - k
  {
    if k < |swaps| {
      FisherYatesPermutes(Swapped(s, |s| - 1 - k, swaps[k]), swaps, k + 1);
      MultisetOfSwapped(s, |s| - 1 - k, swaps[k]);
    }
  }

  /** rand.Shuffle's result for the given swap choices: a permutation of s. */
  function Shuffled<T>(s: seq<T>, swaps: seq<nat>): (r: seq<T>)
    requires ValidSwaps(|s|, swaps)
    ensures |r| == |s|
    ensures multiset(r) == multiset(s)
  {
    FisherYatesPermutes(s, swaps, 0);
    FisherYates(s, swaps, 0)
  }

  method ShuffleSuggestors<T>(a: array<T>, swaps: seq<nat>)
    requires ValidSwaps(a.Length, swaps)
    modifies a
    ensures a[..] == Shuffled(old(a[..]), swaps)
  {
    ghost var s := a[..];
    var i := a.Length - 1;
    var k := 0;
    while i > 0
      invariant 0 <= k <= |swaps|
      invariant i == a.Length - 1 - k
      invariant FisherYates(a[..], swaps, k) == Shuffled(s, swaps)
    {
      var j := swaps[k];
      ghost var before := a[..];
      a[i], a[j] := a[j], a[i];
      assert a[..] == Swapped(before, i, j);
      i := i - 1;
      k := k + 1;
    }
  }

  // ---------------------------------------------------------------------
  // The outcomes the unit tests pin down, for every coin sequence.

  lemma VanishVowelEvery(coins: seq<bool>)
    ensures VanishedVowel(Ascii("every"), coins) == Ascii("evry")
  {
    EveryScan(coins);
    var s: Bytes := [101, 118, 101, 114, 121];
    assert s[..2] + s[3..] == [101, 118, 114, 121];
    assert Ascii("evry") == [101, 118, 114, 121];
  }

  /** In "every" the only vowel after position 0 is the 'e' at position 2. */
  lemma EveryScan(coins: seq<bool>)
    ensures Ascii("every") == [101, 118, 101, 114, 121]
    ensures Chosen(Ascii("every"), coins, true) == 2
  {
    var s := Ascii("every");
    assert s == [101, 118, 101, 114, 121];
    VowelCode(s[1]); VowelCode(s[2]); VowelCode(s[3]); VowelCode(s[4]);
    assert !Eligible(s, true, 0) && !Eligible(s, true, 1) && Eligible(s, true, 2);
    assert !Eligible(s, true, 3) && !Eligible(s, true, 4);
  }

  lemma VowelTransformWorld(coins: seq<bool>)
    ensures HasEligible(Ascii("world"), false)
    ensures TransformedVowel(Ascii("world"), coins, VowelSwap) == Ascii("wurld")
  {
    WorldScan(coins);
    AsciiWurld();
    var s: Bytes := [119, 111, 114, 108, 100];
    assert s[1 := VowelSwap(s[1])] == [119, 117, 114, 108, 100];
  }

  lemma RepeatVowelWorld(coins: seq<bool>)
    ensures RepeatedVowel(Ascii("world"), coins) == Ascii("woorld")
  {
    WorldScan(coins);
    var s: Bytes := [119, 111, 114, 108, 100];
    assert s[..2] + s[1..] == [119, 111, 111, 114, 108, 100];
    AsciiWoorld();
  }

  lemma AsciiWoorld()
    ensures Ascii("woorld") == [119, 111, 111, 114, 108, 100]
  {
  }

  lemma AsciiWurld()
    ensures Ascii("wurld") == [119, 117, 114, 108, 100]
  {
  }

  /** In "world" the only vowel is the 'o' at position 1. */
  lemma WorldScan(coins: seq<bool>)
    ensures Ascii("world") == [119, 111, 114, 108, 100]
    ensures HasEligible(Ascii("world"), false) && Chosen(Ascii("world"), coins, false) == 1
  {
    var s := Ascii("world");
    assert s == [119, 111, 114, 108, 100];
    VowelCode(s[0]); VowelCode(s[1]); VowelCode(s[2]); VowelCode(s[3]); VowelCode(s[4]);
    assert !Eligible(s, false, 0) && Eligible(s, false, 1) && !Eligible(s, false, 2);
    assert !Eligible(s, false, 3) && !Eligible(s, false, 4);
    var i := Chosen(s, coins, false);
    assert i == 1;
  }

  lemma AlphabetTransformHello()
    ensures MappedBytes(Ascii("hello"), AlphabetSwap) == Ascii("hillu")
  {
    var s := Ascii("hello");
    assert s == [104, 101, 108, 108, 111];
    var r := MappedBytes(s, AlphabetSwap);
    assert r[0] == AlphabetSwap(104) == 104;
    assert r[1] == AlphabetSwap(101) == 105;
    assert r[2] == AlphabetSwap(108) == 108;
    assert r[3] == AlphabetSwap(108) == 108;
    assert r[4] == AlphabetSwap(111) == 117;
    assert r == [104, 105, 108, 108, 117];
    assert Ascii("hillu") == [104, 105, 108, 108, 117];
  }

  lemma FixedEditsUser()
    ensures RepeatSubfix(Ascii("username")) == Ascii("usernname")
    ensures RepeatPrefix(Ascii("user")) == Ascii("uuser")
    ensures RepeatSuffix(Ascii("user")) == Ascii("userr")
    ensures SetPostInitialSep(Ascii("user"), B('.')) == Ascii("u.ser")
    ensures SetPenultimateSep(Ascii("user"), B('.')) == Ascii("use.r")
  {
  }

  lemma SwapTwoCharsVectors()
    ensures SwappedTwoChars(Ascii("user")) == Ascii("usre")
    ensures SwappedTwoChars(Ascii("ab")) == Ascii("ab")
    ensures SwappedTwoChars(Ascii("unamee")) == Ascii("unmaee")
  {
  }
}
