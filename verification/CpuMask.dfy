/** Kernel CPU masks: comma-separated 32-bit hexadecimal words, most significant word first. */
module CpuMask {
  import opened Numbers
  import opened Text
  import opened Sorting
  import Sequences

  const WORD := 0x1_0000_0000

  function Pow2(n: nat): (p: nat)
    ensures p >= 1
  {
    if n == 0 then 1 else 2 * Pow2(n - 1)
  }

  /** `v & (1 << b) != 0`. */
  predicate Bit(v: nat, b: nat) { if b == 0 then v % 2 == 1 else Bit(v / 2, b - 1) }

  // ---- hexadecimal words

  function HexDigit(d: nat): char
    requires d < 16
  {
    if d < 10 then '0' + d as char else 'a' + (d - 10) as char
  }

  function HexDigitValue(c: char): Option<nat> {
    if '0' <= c <= '9' then Some((c - '0') as nat)
    else if 'a' <= c <= 'f' then Some((c - 'a') as nat + 10)
    else if 'A' <= c <= 'F' then Some((c - 'A') as nat + 10)
    else None
  }

  /** The low `k` hexadecimal digits of `v`, zero-padded; `%08x` is `Hex(v, 8)`. */
  function Hex(v: nat, k: nat): (s: string)
    ensures |s| == k
  {
    if k == 0 then "" else Hex(v / 16, k - 1) + [HexDigit(v % 16)]
  }

  function HexValue(s: string): Option<nat> {
    if s == "" then Some(0)
    else
      match (HexValue(s[..|s| - 1]), HexDigitValue(s[|s| - 1]))
      case (Some(high), Some(low)) => Some(high * 16 + low)
      case _ => None
  }

  /** `strconv.ParseUint(word, 16, 32)`. */
  function ParseHex32(word: string): Option<nat> {
    match HexValue(word)
    case Some(v) => if word != "" && v < WORD then Some(v) else None
    case None => None
  }

  function Pow16(k: nat): (p: nat)
    ensures p >= 1
  {
    if k == 0 then 1 else 16 * Pow16(k - 1)
  }

  lemma {:induction false} HexRoundTrip(v: nat, k: nat)
    requires v < Pow16(k)
    ensures HexValue(Hex(v, k)) == Some(v)
  {
    if k > 0 {
      HexRoundTrip(v / 16, k - 1);
      assert Hex(v, k)[..k - 1] == Hex(v / 16, k - 1);
    }
  }

  function LowerHex(c: char): char { if 'A' <= c <= 'F' then 'a' + (c - 'A') else c }

  function Lower(s: string): (l: string)
    ensures |l| == |s|
  {
    seq(|s|, i requires 0 <= i < |s| => LowerHex(s[i]))
  }

  lemma DigitIff(c: char, d: nat)
    ensures HexDigitValue(c) == Some(d) <==> d < 16 && LowerHex(c) == HexDigit(d)
  {}

  /** A text has the value `v` exactly when, capitals aside, it is `v` printed with as many digits. */
  lemma {:induction false} HexValueIff(s: string, v: nat)
    ensures HexValue(s) == Some(v) <==> v < Pow16(|s|) && Lower(s) == Hex(v, |s|)
  {
    if s != "" {
      var n := |s| - 1;
      HexValueIff(s[..n], v / 16);
      DigitIff(s[n], v % 16);
      assert Lower(s) == Lower(s[..n]) + [LowerHex(s[n])];
      assert Hex(v, |s|) == Hex(v / 16, n) + [HexDigit(v % 16)];
      assert Lower(s)[..n] == Lower(s[..n]) && Lower(s)[n] == LowerHex(s[n]);
      assert Hex(v, |s|)[..n] == Hex(v / 16, n) && Hex(v, |s|)[n] == HexDigit(v % 16);
      assert v < Pow16(|s|) <==> v / 16 < Pow16(n);
      HexParts(s, v);
    }
  }

  lemma HexParts(s: string, v: nat)
    requires s != ""
    ensures HexValue(s) == Some(v) <==> HexValue(s[..|s| - 1]) == Some(v / 16) && HexDigitValue(s[|s| - 1]) == Some(v % 16)
  {}

  /** A word of a mask is understood exactly when it has digits and fits in 32 bits. */
  lemma ParseHex32Iff(word: string, v: nat)
    ensures ParseHex32(word) == Some(v) <==> word != "" && v < 0x1_0000_0000 && v < Pow16(|word|) && Lower(word) == Hex(v, |word|)
  {
    HexValueIff(word, v);
  }

  lemma ParseHexWord(v: nat)
    requires v < WORD
    ensures ParseHex32(Hex(v, 8)) == Some(v)
  {
    EightDigits();
    HexRoundTrip(v, 8);
  }

  lemma {:induction false} HexChars(v: nat, k: nat)
    ensures forall i :: 0 <= i < k ==> HexDigitValue(Hex(v, k)[i]).Some?
  {
    if k > 0 { HexChars(v / 16, k - 1); }
  }

  // ---- bits of a word of low ones

  /** `(1 << k) - 1` has exactly the bits below `k`. */
  lemma {:induction false} LowBits(k: nat, b: nat)
    ensures Bit(Pow2(k) - 1, b) <==> b < k
  {
    if k == 0 {
      NoBits(b);
    } else if b > 0 {
      LowBits(k - 1, b - 1);
      assert (Pow2(k) - 1) / 2 == Pow2(k - 1) - 1;
    }
  }

  lemma {:induction false} NoBits(b: nat)
    ensures !Bit(0, b)
  {
    if b > 0 { NoBits(b - 1); }
  }

  lemma {:induction false} Pow2Monotone(a: nat, b: nat)
    requires a <= b
    ensures Pow2(a) <= Pow2(b)
  {
    if a < b { Pow2Monotone(a, b - 1); }
  }

  lemma {:induction false} Pow2Add(a: nat, b: nat)
    ensures Pow2(a + b) == Pow2(a) * Pow2(b)
  {
    if b > 0 { Pow2Add(a, b - 1); }
  }

  lemma Pow2OfWord()
    ensures Pow2(32) == WORD
  {
    assert Pow2(8) == 256;
    Pow2Add(8, 8);
    Pow2Add(16, 16);
  }

  // ---- parsing a mask

  /** The word that covers CPUs `32 * j` to `32 * j + 31`, if the mask has it and it parses. */
  function WordValue(s: string, j: nat): Option<nat> {
    var words := Split(TrimSpace(s), ',');
    if j < |words| then ParseHex32(words[|words| - 1 - j]) else None
  }

  /** The mask `s` names `cpu`. */
  predicate InMask(s: string, cpu: nat) {
    var word := WordValue(s, cpu / 32);
    word.Some? && Bit(word.value, cpu % 32)
  }

  function WordBits(v: nat, base: nat, n: nat): seq<int> {
    if n == 0 then []
    else WordBits(v, base, n - 1) + (if Bit(v, n - 1) then [base + n - 1] else [])
  }

  /** The set bits of the word that covers CPUs from `32 * wordIdx`; none when it does not parse. */
  function BitsOf(word: string, wordIdx: nat): seq<int> {
    match ParseHex32(word)
    case Some(v) => WordBits(v, wordIdx * 32, 32)
    case None => []
  }

  function RawBits(words: seq<string>): seq<int> {
    if words == [] then [] else BitsOf(words[0], |words| - 1) + RawBits(words[1..])
  }

  /** `parseCPUMaskBits`, as a function. */
  function ParseBits(s: string): seq<int> { Sort(IntLe, RawBits(Split(TrimSpace(s), ','))) }

  method ParseCPUMaskBits(s: string) returns (bits: seq<int>)
    ensures bits == ParseBits(s)
  {
    var raw := CollectBits(Split(TrimSpace(s), ','));
    bits := Sort(IntLe, raw);
  }

  method CollectBits(words: seq<string>) returns (bits: seq<int>)
    ensures bits == RawBits(words)
  {
    bits := [];
    for i := 0 to |words|
      invariant bits + RawBits(words[i..]) == RawBits(words)
    {
      RawBitsStep(bits, words, i);
      bits := AppendParsed(bits, words[i], |words| - 1 - i);
    }
  }

  method AppendParsed(bits: seq<int>, word: string, wordIdx: nat) returns (r: seq<int>)
    ensures r == bits + BitsOf(word, wordIdx)
  {
    r := bits;
    var parsed := ParseHex32(word);
    if parsed.Some? { r := AppendWord(bits, parsed.value, wordIdx * 32); }
  }

  lemma RawBitsStep(bits: seq<int>, words: seq<string>, i: nat)
    requires i < |words|
    ensures bits + RawBits(words[i..]) == (bits + BitsOf(words[i], |words| - 1 - i)) + RawBits(words[i + 1..])
  {
    assert words[i..][0] == words[i] && words[i..][1..] == words[i + 1..];
    Sequences.Associate(bits, BitsOf(words[i], |words| - 1 - i), RawBits(words[i + 1..]));
  }

  method AppendWord(bits: seq<int>, v: nat, base: nat) returns (r: seq<int>)
    ensures r == bits + WordBits(v, base, 32)
  {
    r := bits;
    for bit := 0 to 32
      invariant r == bits + WordBits(v, base, bit)
    {
      if Bit(v, bit) { r := r + [base + bit]; }
    }
  }

  lemma {:induction false} WordBitsMembers(v: nat, base: nat, n: nat)
    ensures Distinct(WordBits(v, base, n))
    ensures forall c: int :: c in WordBits(v, base, n) <==> base <= c < base + n && Bit(v, c - base)
  {
    if n > 0 {
      WordBitsMembers(v, base, n - 1);
      DistinctConcat(WordBits(v, base, n - 1), if Bit(v, n - 1) then [base + n - 1] else []);
    }
  }

  /** CPU `c` is set by one of `words`, the last of which covers CPUs 0 to 31. */
  predicate Covered(words: seq<string>, c: int) {
    && 0 <= c < 32 * |words|
    && var word := ParseHex32(words[|words| - 1 - c / 32]);
    word.Some? && Bit(word.value, c % 32)
  }

  lemma {:induction false} RawBitsMembers(words: seq<string>)
    ensures Distinct(RawBits(words))
    ensures forall c: int :: c in RawBits(words) <==> Covered(words, c)
  {
    if words != [] {
      var top, rest := BitsOf(words[0], |words| - 1), words[1..];
      RawBitsMembers(rest);
      forall c: int ensures c in top <==> c / 32 == |words| - 1 && Covered(words, c) {
        var word := ParseHex32(words[0]);
        if word.Some? { WordBitsMembers(word.value, (|words| - 1) * 32, 32); }
      }
      forall c: int ensures c in RawBits(rest) <==> c / 32 != |words| - 1 && Covered(words, c) {
        if Covered(words, c) && c / 32 != |words| - 1 {
          assert words[|words| - 1 - c / 32] == rest[|rest| - 1 - c / 32];
        }
      }
      assert Distinct(top) by {
        var word := ParseHex32(words[0]);
        if word.Some? { WordBitsMembers(word.value, (|words| - 1) * 32, 32); }
      }
      forall c: int | c in top ensures c !in RawBits(rest) { assert c / 32 == |words| - 1; }
      DistinctConcat(top, RawBits(rest));
    }
  }

  ghost predicate StrictlyIncreasing(s: seq<int>) { forall i, j :: 0 <= i < j < |s| ==> s[i] < s[j] }

  /** Whatever the text, the parsed list is strictly increasing and holds exactly the CPUs the mask names. */
  lemma ParseBitsDenotes(s: string)
    ensures StrictlyIncreasing(ParseBits(s))
    ensures forall c: int :: c in ParseBits(s) <==> c >= 0 && InMask(s, c)
  {
    var raw := RawBits(Split(TrimSpace(s), ','));
    RawBitsMembers(Split(TrimSpace(s), ','));
    SortInts(raw);
    forall c: int ensures c in raw <==> c >= 0 && InMask(s, c) { CoveredIffInMask(s, c); }
  }

  lemma CoveredIffInMask(s: string, c: int)
    ensures Covered(Split(TrimSpace(s), ','), c) <==> c >= 0 && InMask(s, c)
  {}

  lemma {:induction false} IncreasingUnique(a: seq<int>, b: seq<int>)
    requires StrictlyIncreasing(a) && StrictlyIncreasing(b)
    requires forall c: int :: c in a <==> c in b
    ensures a == b
  {
    IntOrder();
    DistinctIsSet(a);
    DistinctIsSet(b);
    assert (set x | x in a) == (set x | x in b);
    SortedUnique(IntLe, a, b);
  }

  /** `a` and `b` name the same CPUs. */
  ghost predicate SameCPUs(a: string, b: string) { forall c: nat :: InMask(a, c) <==> InMask(b, c) }

  /** Equality of masks is equality of the sets of CPUs they name. */
  lemma EqualBitsIffSameCPUs(a: string, b: string)
    ensures ParseBits(a) == ParseBits(b) <==> SameCPUs(a, b)
  {
    ParseBitsDenotes(a);
    ParseBitsDenotes(b);
    if SameCPUs(a, b) {
      forall c: int ensures c in ParseBits(a) <==> c in ParseBits(b) {
        if c >= 0 { assert InMask(a, c) <==> InMask(b, c); }
      }
      IncreasingUnique(ParseBits(a), ParseBits(b));
    }
    if ParseBits(a) == ParseBits(b) {
      forall c: nat ensures InMask(a, c) <==> InMask(b, c) { assert c in ParseBits(a) <==> c in ParseBits(b); }
    }
  }

  method CPUMasksEqual(a: string, b: string) returns (equal: bool)
    ensures equal <==> SameCPUs(a, b)
  {
    var x := ParseCPUMaskBits(a);
    var y := ParseCPUMaskBits(b);
    EqualBitsIffSameCPUs(a, b);
    equal := x == y;
  }

  // ---- printing a mask of the low n CPUs

  function AtLeastOne(n: int): (m: nat)
    ensures m >= 1
  {
    if n <= 0 then 1 else n
  }

  /** The word for CPUs `32 * j` onwards when CPUs below `n` are set. */
  function LowWord(n: nat, j: nat): nat
    requires 32 * j < n
  {
    Pow2(Min(n - 32 * j, 32)) - 1
  }

  function MaskWords(n: nat): (words: seq<string>)
    requires n >= 1
    ensures |words| == (n + 31) / 32 >= 1
  {
    var numWords := (n + 31) / 32;
    seq(numWords, i requires 0 <= i < numWords => Hex(LowWord(n, numWords - 1 - i), 8))
  }

  /** `cpumaskAll`, as a function. */
  function MaskAll(n: int): string { Join(MaskWords(AtLeastOne(n)), ",") }

  method CpumaskAll(n: int) returns (mask: string)
    ensures mask == MaskAll(n)
  {
    var m := n;
    if m <= 0 { m := 1; }
    var words := FillWords(m);
    ghost var filled := words[..];
    ReverseWords(words);
    ReversedIsMaskWords(m, filled, words[..]);
    mask := Join(words[..], ",");
  }

  method FillWords(m: nat) returns (words: array<string>)
    requires m >= 1
    ensures fresh(words) && words.Length == (m + 31) / 32
    ensures forall k :: 0 <= k < words.Length ==> words[k] == Hex(LowWord(m, k), 8)
  {
    var numWords := (m + 31) / 32;
    words := new string[numWords];
    var remaining := m;
    for i := 0 to numWords
      invariant remaining == m - Min(32 * i, m) && words.Length == numWords
      invariant forall k :: 0 <= k < i ==> words[k] == Hex(LowWord(m, k), 8)
    {
      var bits := Min(remaining, 32);
      assert bits == Min(m - 32 * i, 32);
      var word := WordMask(bits);
      assert word == LowWord(m, i);
      words[i] := Hex(word, 8);
      remaining := remaining - bits;
    }
  }

  lemma ReversedIsMaskWords(m: nat, filled: seq<string>, reversed: seq<string>)
    requires m >= 1 && |filled| == |reversed| == (m + 31) / 32
    requires forall k :: 0 <= k < |filled| ==> filled[k] == Hex(LowWord(m, k), 8)
    requires forall k :: 0 <= k < |filled| ==> reversed[k] == filled[|filled| - 1 - k]
    ensures reversed == MaskWords(m)
  {}

  method WordMask(bits: nat) returns (mask: nat)
    requires bits <= 32
    ensures mask == Pow2(bits) - 1
  {
    if bits >= 32 {
      mask := 0xffff_ffff;
      Pow2OfWord();
    } else if bits > 0 {
      mask := Pow2(bits) - 1;
    } else {
      mask := 0;
    }
  }

  method ReverseWords(words: array<string>)
    modifies words
    ensures forall k :: 0 <= k < words.Length ==> words[k] == old(words[words.Length - 1 - k])
  {
    var l, r := 0, words.Length - 1;
    while l < r
      invariant 0 <= l <= words.Length && r == words.Length - 1 - l && l <= r + 1
      invariant forall k :: 0 <= k < l || r < k < words.Length ==> words[k] == old(words[words.Length - 1 - k])
      invariant forall k :: l <= k <= r ==> words[k] == old(words[k])
    {
      words[l], words[r] := words[r], words[l];
      l, r := l + 1, r - 1;
    }
  }

  /** Word `j`, from the last, of the mask of the CPUs below `m`. */
  function MaskValue(m: nat, j: nat): nat { if 32 * j < m then LowWord(m, j) else 0 }

  /** That mask with as many words, and as many digits in each, as `widths` says. */
  function Rendered(m: nat, widths: seq<nat>): (words: seq<string>)
    ensures |words| == |widths|
  {
    seq(|widths|, i requires 0 <= i < |widths| => Hex(MaskValue(m, |widths| - 1 - i), widths[i]))
  }

  /** Enough words for all the CPUs, and enough digits, at least one, for each word. */
  predicate Wide(m: nat, widths: seq<nat>) {
    && 1 <= m <= 32 * |widths|
    && forall i :: 0 <= i < |widths| ==> widths[i] >= 1 && MaskValue(m, |widths| - 1 - i) < Pow16(widths[i])
  }

  predicate HexWord(s: string) { s != "" && forall k :: 0 <= k < |s| ==> HexDigitValue(s[k]).Some? }

  lemma HexWordFree(s: string)
    requires HexWord(s)
    ensures Free(s, Only(','))
  {}

  lemma HexParses(v: nat, k: nat)
    requires k >= 1 && v < Pow16(k) && v < WORD
    ensures HexWord(Hex(v, k)) && ParseHex32(Hex(v, k)) == Some(v)
  {
    HexChars(v, k);
    HexRoundTrip(v, k);
  }

  lemma MaskValueFits(m: nat, j: nat)
    ensures MaskValue(m, j) < WORD
  {
    if 32 * j < m { WordFits(m, j); }
  }

  lemma RenderedWord(m: nat, widths: seq<nat>, i: nat)
    requires Wide(m, widths) && i < |widths|
    ensures HexWord(Rendered(m, widths)[i]) && ParseHex32(Rendered(m, widths)[i]) == Some(MaskValue(m, |widths| - 1 - i))
  {
    MaskValueFits(m, |widths| - 1 - i);
    HexParses(MaskValue(m, |widths| - 1 - i), widths[i]);
  }

  lemma {:induction false} JoinedWordsTight(words: seq<string>)
    requires |words| >= 1 && forall i :: 0 <= i < |words| ==> HexWord(words[i])
    ensures var s := Join(words, ","); s != "" && !IsSpace(s[0]) && !IsSpace(s[|s| - 1])
  {
    assert HexWord(words[0]);
    if |words| > 1 { JoinedWordsTight(words[1..]); }
  }

  lemma HexWordsSplit(words: seq<string>)
    requires |words| >= 1 && forall i :: 0 <= i < |words| ==> HexWord(words[i])
    ensures Split(TrimSpace(Join(words, ",")), ',') == words
  {
    JoinedWordsTight(words);
    TrimTight(Join(words, ","));
    forall i | 0 <= i < |words| ensures Free(words[i], Only(',')) { HexWordFree(words[i]); }
    SplitJoin(words, ',');
  }

  /** Word `j`, counted from the last, of a rendered mask. */
  lemma RenderedWordValue(m: nat, widths: seq<nat>, j: nat)
    requires Wide(m, widths)
    ensures WordValue(Join(Rendered(m, widths), ","), j) == if j < |widths| then Some(MaskValue(m, j)) else None
  {
    forall i | 0 <= i < |widths| ensures HexWord(Rendered(m, widths)[i]) { RenderedWord(m, widths, i); }
    HexWordsSplit(Rendered(m, widths));
    if j < |widths| { RenderedWord(m, widths, |widths| - 1 - j); }
  }

  /** However many words, and however many digits a word, a rendered mask names exactly the CPUs below `m`. */
  lemma RenderedDenotes(m: nat, widths: seq<nat>, cpu: nat)
    requires Wide(m, widths)
    ensures InMask(Join(Rendered(m, widths), ","), cpu) <==> cpu < m
  {
    RenderedWordValue(m, widths, cpu / 32);
    if 32 * (cpu / 32) < m {
      LowWordBit(m, cpu);
    } else {
      NoBits(cpu % 32);
    }
  }

  lemma EightDigits()
    ensures Pow16(8) == WORD
  {
    assert Pow16(2) == 256 && Pow16(4) == 65536 && Pow16(6) == 0x100_0000;
  }

  /** The printed mask is the rendering with just enough words of eight digits. */
  lemma MaskAllIsRendered(n: int)
    ensures var m := AtLeastOne(n); var widths := seq((m + 31) / 32, i => 8);
      Wide(m, widths) && MaskAll(n) == Join(Rendered(m, widths), ",")
  {
    var m := AtLeastOne(n);
    var widths := seq((m + 31) / 32, i => 8);
    EightDigits();
    forall i | 0 <= i < |widths| ensures MaskValue(m, |widths| - 1 - i) < Pow16(widths[i]) { WordFits(m, |widths| - 1 - i); }
    assert Rendered(m, widths) == MaskWords(m);
  }

  lemma WordFits(m: nat, j: nat)
    requires 32 * j < m
    ensures LowWord(m, j) < WORD
  {
    Pow2OfWord();
    Pow2Monotone(Min(m - 32 * j, 32), 32);
  }

  /** The printed mask names exactly the low `max(n, 1)` CPUs. */
  lemma MaskAllDenotes(n: int, cpu: nat)
    ensures InMask(MaskAll(n), cpu) <==> cpu < AtLeastOne(n)
  {
    MaskAllIsRendered(n);
    RenderedDenotes(AtLeastOne(n), seq((AtLeastOne(n) + 31) / 32, i => 8), cpu);
  }

  lemma LowWordBit(m: nat, cpu: nat)
    requires 32 * (cpu / 32) < m
    ensures Bit(LowWord(m, cpu / 32), cpu % 32) <==> cpu < m
  {
    var low := Min(m - 32 * (cpu / 32), 32);
    LowBits(low, cpu % 32);
    assert cpu % 32 < low <==> cpu < m by { assert cpu == 32 * (cpu / 32) + cpu % 32; }
  }

  /** Printing then parsing gives 0, 1, ..., max(n, 1) - 1, for every n. */
  lemma MaskRoundTrip(n: int)
    ensures ParseBits(MaskAll(n)) == seq(AtLeastOne(n), i => i)
  {
    var all := seq(AtLeastOne(n), i => i);
    ParseBitsDenotes(MaskAll(n));
    forall c: int ensures c in ParseBits(MaskAll(n)) <==> c in all {
      if c >= 0 { MaskAllDenotes(n, c); }
      if 0 <= c < AtLeastOne(n) { assert all[c] == c; }
      if c in all { assert 0 <= c < AtLeastOne(n); }
      assert c in ParseBits(MaskAll(n)) <==> c >= 0 && InMask(MaskAll(n), c);
    }
    IncreasingUnique(ParseBits(MaskAll(n)), all);
  }

  // ---- kernel padding

  /** `s` with `k` all-zero words in front. */
  function Pad(k: nat, s: string): string { if k == 0 then s else "00000000," + Pad(k - 1, s) }

  lemma {:induction false} PadSplits(k: nat, s: string)
    ensures Split(Pad(k, s), ',') == seq(k, i => "00000000") + Split(s, ',')
  {
    if k > 0 {
      PadSplits(k - 1, s);
      assert Pad(k, s) == "00000000" + [','] + Pad(k - 1, s);
      SplitOnConcat("00000000", ',', Pad(k - 1, s), Only(','));
      SplitOnFree("00000000", Only(','));
      assert seq(k, i => "00000000") == ["00000000"] + seq(k - 1, i => "00000000");
    }
  }

  lemma {:induction false} PadTight(k: nat, s: string)
    requires s != "" ==> !IsSpace(s[0]) && !IsSpace(s[|s| - 1])
    ensures TrimSpace(Pad(k, s)) == Pad(k, s)
    ensures Pad(k, s) != "" ==> !IsSpace(Pad(k, s)[0]) && !IsSpace(Pad(k, s)[|Pad(k, s)| - 1])
  {
    if k > 0 { PadTight(k - 1, s); }
    TrimTight(Pad(k, s));
  }

  lemma ZeroWord()
    ensures ParseHex32("00000000") == Some(0) && Hex(0, 8) == "00000000"
  {
    assert Hex(0, 8) == "00000000" by {
      assert Hex(0, 4) == "0000";
      assert Hex(0, 6) == "000000";
    }
    ParseHexWord(0);
  }

  /** However many all-zero words the kernel puts in front, and with its newline, the mask names the same CPUs. */
  lemma PaddingIsInvisible(k: nat, s: string)
    ensures SameCPUs(Pad(k, TrimSpace(s)), s)
    ensures SameCPUs(Pad(k, TrimSpace(s)) + "\n", s)
  {
    forall c: nat
      ensures InMask(Pad(k, TrimSpace(s)), c) <==> InMask(s, c)
      ensures InMask(Pad(k, TrimSpace(s)) + "\n", c) <==> InMask(s, c)
    {
      PaddedBit(k, s, c);
      NewlineBit(Pad(k, TrimSpace(s)), c);
    }
  }

  lemma NewlineBit(s: string, c: nat)
    ensures InMask(s + "\n", c) <==> InMask(s, c)
  {
    TrimNewline(s);
  }

  lemma PaddedBit(k: nat, s: string, c: nat)
    ensures InMask(Pad(k, TrimSpace(s)), c) <==> InMask(s, c)
  {
    TrimSpaceTight(s);
    PadTight(k, TrimSpace(s));
    PaddedWordValue(k, s, c / 32);
    NoBits(c % 32);
  }

  lemma PaddedWordValue(k: nat, s: string, j: nat)
    requires TrimSpace(Pad(k, TrimSpace(s))) == Pad(k, TrimSpace(s))
    ensures WordValue(Pad(k, TrimSpace(s)), j) == WordValue(s, j)
      || (WordValue(s, j) == None && WordValue(Pad(k, TrimSpace(s)), j) == Some(0))
  {
    PadSplits(k, TrimSpace(s));
    PaddedWords(Split(TrimSpace(s), ','), k, j);
  }

  lemma PaddedWords(words: seq<string>, k: nat, j: nat)
    ensures var padded := seq(k, i => "00000000") + words;
      j < |padded| ==>
        ParseHex32(padded[|padded| - 1 - j]) == if j < |words| then ParseHex32(words[|words| - 1 - j]) else Some(0)
  {
    ZeroWord();
    var zeros := seq(k, i => "00000000");
    if |words| <= j < |words| + k { assert (zeros + words)[|words| + k - 1 - j] == "00000000"; }
  }
}
