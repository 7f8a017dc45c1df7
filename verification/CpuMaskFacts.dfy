/** What the mask printer writes and the mask reader reads, and when one undoes the other. */
module CpuMaskFacts {
  import opened Prelude
  import opened Bits
  import opened CpuMask

  // ----- numbers and digit strings -----

  /** Appending digits shifts the number four bits for each. */
  lemma {:induction false} ValueConcat(s: string, t: string)
    ensures Value(s + t) == Shl(Value(s), 4 * |t|) + Value(t)
    decreases |t|
  {
    if t == [] {
      assert s + t == s;
    } else {
      var n := |t| - 1;
      assert (s + t)[..|s + t| - 1] == s + t[..n];
      ValueConcat(s, t[..n]);
      Shl4(Value(s), 4 * n);
    }
  }

  lemma {:induction false} ValueBound(s: string)
    ensures Value(s) < Shl(1, 4 * |s|)
  {
    if s != [] {
      ValueBound(s[..|s| - 1]);
      Shl4(1, 4 * (|s| - 1));
    }
  }

  /** Cutting digits off the end shifts the number right. */
  lemma {:induction false} ValueCut(s: string, j: nat)
    requires j <= |s|
    ensures Value(s[..|s| - j]) == Shr(Value(s), 4 * j)
  {
    if j == 0 {
      assert s[..|s|] == s;
    } else {
      var n := |s| - 1;
      ValueCut(s[..n], j - 1);
      assert s[..n][..n - (j - 1)] == s[..|s| - j];
      Shr4(Value(s));
      assert Value(s) / 16 == Value(s[..n]);
      ShrSum(Value(s), 4, 4 * (j - 1));
    }
  }

  lemma {:induction false} ValueZeros(n: nat)
    ensures Value(Zeros(n)) == 0
  {
    if n > 0 {
      assert Zeros(n)[..n - 1] == Zeros(n - 1);
      ValueZeros(n - 1);
    }
  }

  lemma {:induction false} ShlZero(a: nat)
    ensures Shl(0, a) == 0
  {
    if a > 0 {
      ShlZero(a - 1);
    }
  }

  lemma Hex64Value(m: nat)
    ensures Value(Hex64(m)) == m
  {
    var h := Hex(m);
    HexFacts(m);
    if |h| < 64 {
      ValueConcat(Zeros(64 - |h|), h);
      ValueZeros(64 - |h|);
      ShlZero(4 * |h|);
    }
  }

  /** A number whose highest bit is `top` has top div 4 + 1 digits. */
  lemma {:induction false} HexLength(m: nat, top: nat)
    requires Bit(m, top) && forall k: nat | k > top :: !Bit(m, k)
    ensures |Hex(m)| == top / 4 + 1
    decreases m
  {
    Shr4(m);
    if m < 16 {
      if top >= 4 {
        ShrBits(m, 4, top - 4);
        ZeroBits(top - 4);
      }
    } else {
      if top < 4 {
        forall k: nat
          ensures Bit(m / 16, k) == Bit(0, k)
        {
          ShrBits(m, 4, k);
          ZeroBits(k);
        }
        SameBits(m / 16, 0);
      }
      ShrBits(m, 4, top - 4);
      forall k: nat | k > top - 4
        ensures !Bit(m / 16, k)
      {
        ShrBits(m, 4, k);
      }
      HexLength(m / 16, top - 4);
    }
  }

  // ----- word lists -----

  /** The number a list of words stands for: 32 bits each, the last one lowest. */
  function Denoted(words: seq<string>): nat {
    if words == [] then 0 else WORD * Denoted(words[..|words| - 1]) + Value(words[|words| - 1])
  }

  /** Words of exactly eight digits. */
  ghost predicate Chunks(words: seq<string>) {
    words != [] && forall i | 0 <= i < |words| :: |words[i]| == 8 && AllHex(words[i])
  }

  lemma WordValue(w: string)
    requires |w| == 8 && AllHex(w)
    ensures ParseWord(w) == Some(Value(w))
  {
    ValueBound(w);
    ShlWord(1);
  }

  lemma ChunksAreWellFormed(words: seq<string>)
    requires Chunks(words)
    ensures WellFormed(words)
  {
    forall w | w in words
      ensures ParseWord(w).Some?
    {
      var i :| 0 <= i < |words| && words[i] == w;
      WordValue(w);
    }
  }

  /** The reader finds exactly the bits of the number that the words stand for. */
  lemma {:induction false} HasCpuIsBit(words: seq<string>, c: nat)
    requires forall i | 0 <= i < |words| :: ParseWord(words[i]).Some?
    requires c / 32 < |words|
    ensures HasCpu(words, c) == Bit(Denoted(words), c)
    decreases |words|
  {
    var n := |words| - 1;
    LastWordBits(words, c);
    if c >= 32 {
      assert words[..n][n - 1 - (c - 32) / 32] == words[|words| - 1 - c / 32];
      assert (c - 32) % 32 == c % 32;
      HasCpuIsBit(words[..n], c - 32);
    }
  }

  lemma LastWordBits(words: seq<string>, c: nat)
    requires words != [] && ParseWord(words[|words| - 1]).Some?
    ensures var n := |words| - 1;
            Bit(Denoted(words), c) == if c < 32 then Bit(Value(words[n]), c) else Bit(Denoted(words[..n]), c - 32)
  {
    var n := |words| - 1;
    var high, low := Denoted(words[..n]), Value(words[n]);
    ShlWord(high);
    ShlWord(1);
    ShlAddBits(high, low, 32, c);
  }

  lemma {:induction false} DenotedBound(words: seq<string>)
    requires forall i | 0 <= i < |words| :: ParseWord(words[i]).Some?
    ensures Denoted(words) < Shl(1, 32 * |words|)
  {
    if words != [] {
      var n := |words| - 1;
      DenotedBound(words[..n]);
      ShlSum(1, 32 * n, 32);
      ShlWord(Shl(1, 32 * n));
    }
  }

  lemma HighBitsClear(m: nat, a: nat, k: nat)
    requires m < Shl(1, a) && k >= a
    ensures !Bit(m, k)
  {
    ShlAddBits(0, m, a, k);
    ShlZero(a);
    ZeroBits(k - a);
  }

  // ----- splitting and joining -----

  ghost predicate NoComma(s: string) {
    ',' !in s
  }

  lemma {:induction false} SplitWord(w: string)
    requires NoComma(w)
    ensures Split(w) == [w]
  {
    if w != [] {
      SplitWord(w[1..]);
      assert w == [w[0]] + w[1..];
    }
  }

  lemma {:induction false} SplitAtComma(w: string, s: string)
    requires NoComma(w)
    ensures Split(w + "," + s) == [w] + Split(s)
  {
    if w == [] {
      assert (w + "," + s)[1..] == s;
    } else {
      assert (w + "," + s)[1..] == w[1..] + "," + s;
      SplitAtComma(w[1..], s);
      assert w == [w[0]] + w[1..];
    }
  }

  lemma {:induction false} SplitJoin(words: seq<string>)
    requires words != [] && forall i | 0 <= i < |words| :: NoComma(words[i])
    ensures Split(Join(words)) == words
  {
    if |words| == 1 {
      SplitWord(words[0]);
    } else {
      SplitJoin(words[1..]);
      SplitAtComma(words[0], Join(words[1..]));
      assert words == [words[0]] + words[1..];
    }
  }

  /** Reading a list of well-formed words gives the set that its number is the mask of. */
  lemma ReaderDenotation(words: seq<string>)
    requires WellFormed(words)
    ensures ParseMask(Join(words)).Some?
    ensures IsMask(Denoted(words), ParseMask(Join(words)).value)
  {
    forall i | 0 <= i < |words|
      ensures NoComma(words[i]) && ParseWord(words[i]).Some?
    {
      assert words[i] in words;
    }
    SplitJoin(words);
    DenotedBound(words);
    forall c: nat
      ensures Bit(Denoted(words), c) <==> c in CpusOf(words)
    {
      if c < 32 * |words| {
        HasCpuIsBit(words, c);
      } else {
        HighBitsClear(Denoted(words), 32 * |words|, c);
      }
    }
  }

  lemma SameMaskSameSet(m: nat, s: set<nat>, t: set<nat>)
    requires IsMask(m, s) && IsMask(m, t)
    ensures s == t
  {
    forall c: nat
      ensures c in s <==> c in t
    {
      assert Bit(m, c) <==> c in s;
    }
  }

  lemma {:induction false} DenotedPrepend(w: string, words: seq<string>)
    ensures Value(w) == 0 ==> Denoted([w] + words) == Denoted(words)
  {
    if words == [] {
      assert ([w] + words)[..0] == [];
      assert [w] + words == [w];
    } else {
      var n := |words| - 1;
      assert ([w] + words)[..n + 1] == [w] + words[..n];
      DenotedPrepend(w, words[..n]);
    }
  }

  /** A leading zero word changes nothing. */
  lemma LeadingZeroWord(w: string, words: seq<string>)
    requires WellFormed(words) && ParseWord(w) == Some(0)
    ensures ParseMask(w + "," + Join(words)) == ParseMask(Join(words))
  {
    var more := [w] + words;
    assert more[1..] == words;
    assert WellFormed(more);
    ReaderDenotation(words);
    ReaderDenotation(more);
    DenotedPrepend(w, words);
    SameMaskSameSet(Denoted(words), ParseMask(Join(words)).value, ParseMask(Join(more)).value);
  }

  // ----- what is printed -----

  lemma AllHexSlice(h: string, i: nat, j: nat)
    requires i <= j <= |h| && AllHex(h)
    ensures AllHex(h[i..j])
  {
    forall c | c in h[i..j]
      ensures IsHexChar(c)
    {
      assert c in h;
    }
  }

  lemma {:induction false} WordsFromShape(h: string, index: nat)
    requires index + 8 <= |h| && index % 8 == 0 && AllHex(h)
    ensures Chunks(WordsFrom(h, index))
    ensures WordsFrom(h, index)[0] == h[index..index + 8]
    ensures 8 * |WordsFrom(h, index)| == |h| - index - |h| % 8
    decreases |h| - index
  {
    AllHexSlice(h, index, index + 8);
    if index + 16 <= |h| {
      WordsFromShape(h, index + 8);
    }
  }

  /** A word in front of a list stands in front of its digits. */
  lemma DenotedInFront(first: string, rest: seq<string>, tail: string)
    requires Denoted(rest) == Value(tail) && 32 * |rest| == 4 * |tail|
    ensures Denoted([first] + rest) == Value(first + tail)
  {
    DenotedCons(first, rest);
    ValueConcat(first, tail);
  }

  lemma OneWord(first: string)
    ensures Denoted([first]) == Value(first)
  {
    assert [first][..0] == [];
  }

  lemma CutInFront(h: string, index: nat, end: nat)
    requires index + 8 <= end <= |h|
    ensures h[index..end] == h[index..index + 8] + h[index + 8..end]
  {
  }

  /** The last `k` whole words before `end` stand for their digits. */
  lemma {:induction false} WordsFromDenote(h: string, k: nat, end: nat)
    requires k >= 1 && 8 * k <= end <= |h| < end + 8
    ensures |WordsFrom(h, end - 8 * k)| == k
    ensures Denoted(WordsFrom(h, end - 8 * k)) == Value(h[end - 8 * k..end])
  {
    var index: nat := end - 8 * k;
    var first := h[index..index + 8];
    if k > 1 {
      WordsFromDenote(h, k - 1, end);
      DenotedInFront(first, WordsFrom(h, index + 8), h[index + 8..end]);
      CutInFront(h, index, end);
    } else {
      OneWord(first);
    }
  }

  lemma WholeWords(n: nat, index: nat) returns (k: nat)
    requires index + 8 <= n && index % 8 == 0
    ensures k >= 1 && index + 8 * k == n - n % 8
  {
    k := n / 8 - index / 8;
  }

  /** The words stand for the digits from `index` to the last whole word. */
  lemma AllWordsDenote(h: string, index: nat)
    requires index + 8 <= |h| && index % 8 == 0
    ensures Denoted(WordsFrom(h, index)) == Value(h[index..|h| - |h| % 8])
  {
    var k := WholeWords(|h|, index);
    WordsFromDenote(h, k, |h| - |h| % 8);
  }

  lemma {:induction false} DenotedCons(w: string, words: seq<string>)
    ensures Denoted([w] + words) == Shl(Value(w), 32 * |words|) + Denoted(words)
  {
    if words == [] {
      assert [w] + words == [w] && [w][..0] == [];
    } else {
      var n := |words| - 1;
      assert ([w] + words)[..n + 1] == [w] + words[..n];
      DenotedCons(w, words[..n]);
      ShlSum(Value(w), 32 * n, 32);
      ShlWord(Shl(Value(w), 32 * n));
    }
  }

  lemma ZeroWord()
    ensures "00000000" == Zeros(8)
  {
  }

  /** The words skipped at the start are zero. */
  lemma {:induction false} StartSkipsZeros(h: string, index: nat, end: nat)
    requires index <= |h| && Start(h, index) <= end <= |h|
    ensures Value(h[index..end]) == Value(h[Start(h, index)..end])
    ensures Start(h, index) + 8 < |h| ==> h[Start(h, index)..Start(h, index) + 8] != "00000000"
    decreases |h| - index
  {
    if index + 8 < |h| && h[index..index + 8] == "00000000" {
      StartSkipsZeros(h, index + 8, end);
      var tail := h[index + 8..end];
      ZeroWord();
      assert h[index..end] == h[index..index + 8] + tail;
      ValueConcat(Zeros(8), tail);
      ValueZeros(8);
      ShlZero(4 * |tail|);
    }
  }

  /** The digits that do not fill a whole word. */
  function Dropped(m: nat): nat {
    |Hex64(m)| % 8
  }

  /** Exactness of the printer: the printed words are eight lower-case digits each and stand for the
      mask without its last |h| mod 8 digits, h being the padded hexadecimal mask. */
  lemma PrinterExact(m: nat)
    ensures Chunks(PrintedWords(m))
    ensures Denoted(PrintedWords(m)) == Shr(m, 4 * Dropped(m))
  {
    var h := Hex64(m);
    var end := |h| - |h| % 8;
    HexPadded(m);
    StartFits(h, 0);
    WordsFromShape(h, Start(h, 0));
    AllWordsDenote(h, Start(h, 0));
    StartSkipsZeros(h, 0, end);
    assert h[0..end] == h[..end];
    ValueCut(h, |h| % 8);
    Hex64Value(m);
  }

  /** Reading back what was printed gives the CPUs shifted down by the dropped digits. */
  lemma PrintThenRead(m: nat, s: set<nat>)
    requires IsMask(m, s)
    ensures ParseMask(Join(PrintedWords(m))).Some?
    ensures forall c: nat :: c in ParseMask(Join(PrintedWords(m))).value <==> 4 * Dropped(m) + c in s
  {
    var words := PrintedWords(m);
    PrinterExact(m);
    ReadChunks(words);
    ShiftedMask(m, s, 4 * Dropped(m), ParseMask(Join(words)).value);
  }

  lemma ReadChunks(words: seq<string>)
    requires Chunks(words)
    ensures ParseMask(Join(words)).Some? && IsMask(Denoted(words), ParseMask(Join(words)).value)
  {
    ChunksAreWellFormed(words);
    ReaderDenotation(words);
  }

  /** The set of a mask shifted down. */
  lemma ShiftedMask(m: nat, s: set<nat>, a: nat, shifted: set<nat>)
    requires IsMask(m, s) && IsMask(Shr(m, a), shifted)
    ensures forall c: nat :: c in shifted <==> a + c in s
  {
    forall c: nat
      ensures c in shifted <==> a + c in s
    {
      ShrBits(m, a, c);
      assert Bit(Shr(m, a), c) <==> c in shifted;
      assert Bit(m, a + c) <==> a + c in s;
    }
  }

  // ----- the round trip -----

  /** With highest CPU `top` the mask has top div 4 + 1 digits, of which 64 are always printed. */
  lemma DroppedDigits(m: nat, s: set<nat>, top: nat)
    requires IsMask(m, s) && top in s && forall c | c in s :: c <= top
    ensures Dropped(m) == if top < 256 then 0 else (top / 4 + 1) % 8
  {
    assert Bit(m, top);
    assert forall k: nat | k > top :: !Bit(m, k);
    HexLength(m, top);
  }

  /** The padded mask fills whole words exactly when the highest CPU is below 256 or among the last
      four of its word. */
  lemma DroppedIff(m: nat, s: set<nat>, top: nat)
    requires IsMask(m, s) && top in s && forall c | c in s :: c <= top
    ensures Dropped(m) == 0 <==> top < 256 || top % 32 >= 28
  {
    DroppedDigits(m, s, top);
  }

  lemma EmptySetDropsNothing(m: nat)
    requires IsMask(m, {})
    ensures Dropped(m) == 0
  {
    forall k: nat
      ensures Bit(m, k) == Bit(0, k)
    {
      ZeroBits(k);
    }
    SameBits(m, 0);
  }

  /** Reading a printed set returns that set exactly when its highest CPU is below 256 or among the
      last four CPUs of its 32-bit word; otherwise low digits were lost and the CPUs come back shifted. */
  lemma RoundTripIff(m: nat, s: set<nat>, top: nat)
    requires IsMask(m, s) && top in s && forall c | c in s :: c <= top
    ensures ParseMask(Join(PrintedWords(m))) == Some(s) <==> top < 256 || top % 32 >= 28
  {
    PrintThenRead(m, s);
    DroppedIff(m, s, top);
    var read := ParseMask(Join(PrintedWords(m))).value;
    if Dropped(m) == 0 {
      assert read == s;
    } else {
      assert top in read <==> 4 * Dropped(m) + top in s;
      assert top !in read;
    }
  }

  lemma RoundTripOfEmpty(m: nat)
    requires IsMask(m, {})
    ensures ParseMask(Join(PrintedWords(m))) == Some({})
  {
    EmptySetDropsNothing(m);
    PrintThenRead(m, {});
    assert ParseMask(Join(PrintedWords(m))).value == {};
  }

  lemma ShiftedSingleton(read: set<nat>, cpu: nat, d: nat)
    requires d <= cpu && forall c: nat :: c in read <==> d + c in {cpu}
    ensures read == {cpu - d}
  {
    forall c: nat
      ensures c in read <==> c == cpu - d
    {
      assert c in read <==> d + c in {cpu};
    }
  }

  /** A single CPU above 255 comes back lower by four for every dropped digit: 256 as 252, 287 as 287,
      288 as 284. */
  lemma SingleCpuComesBackAs(m: nat, cpu: nat)
    requires IsMask(m, {cpu}) && cpu >= 256
    ensures ParseMask(Join(PrintedWords(m))) == Some({cpu - 4 * ((cpu / 4 + 1) % 8)})
  {
    PrintThenRead(m, {cpu});
    DroppedDigits(m, {cpu}, cpu);
    ShiftedSingleton(ParseMask(Join(PrintedWords(m))).value, cpu, 4 * Dropped(m));
  }

  // ----- no shorter list -----

  /** A list whose first word is not zero stands for a number with a bit in that word. */
  lemma FirstWordCounts(w: string, words: seq<string>)
    requires Value(w) > 0
    ensures Denoted([w] + words) >= Shl(1, 32 * |words|)
  {
    DenotedCons(w, words);
    ShlMonotone(1, Value(w), 32 * |words|);
  }

  lemma {:induction false} ValuePositive(s: string)
    requires AllHex(s) && exists i :: 0 <= i < |s| && s[i] != '0'
    ensures Value(s) > 0
  {
    var n := |s| - 1;
    if s[n] == '0' {
      var i :| 0 <= i < |s| && s[i] != '0';
      assert s[..n][i] == s[i];
      ValuePositive(s[..n]);
    } else {
      assert s[n] in s;
    }
  }

  lemma AllZero(w: string)
    requires |w| == 8 && forall i | 0 <= i < |w| :: w[i] == '0'
    ensures w == "00000000"
  {
  }

  lemma FirstPrintedWord(m: nat)
    ensures |PrintedWords(m)| > 1 ==> Value(PrintedWords(m)[0]) > 0
  {
    var h := Hex64(m);
    var start := Start(h, 0);
    HexPadded(m);
    StartFits(h, 0);
    StartSkipsZeros(h, 0, |h|);
    WordsFromShape(h, start);
    if |PrintedWords(m)| > 1 {
      var w := h[start..start + 8];
      if forall i | 0 <= i < |w| :: w[i] == '0' {
        AllZero(w);
      }
      ValuePositive(w);
    }
  }

  lemma {:induction false} ShlGrows(a: nat, b: nat)
    requires a <= b
    ensures Shl(1, a) <= Shl(1, b)
  {
    ShlSum(1, a, b - a);
    ShlPositive(Shl(1, a), b - a);
  }

  /** Among all well-formed lists with the same meaning, the printed one is shortest. */
  lemma PrintedIsShortest(m: nat, words: seq<string>)
    requires WellFormed(words) && Denoted(words) == Denoted(PrintedWords(m))
    ensures |PrintedWords(m)| <= |words|
  {
    var printed := PrintedWords(m);
    if |printed| > 1 {
      FirstPrintedWord(m);
      assert printed == [printed[0]] + printed[1..];
      FirstWordCounts(printed[0], printed[1..]);
      forall i | 0 <= i < |words|
        ensures ParseWord(words[i]).Some?
      {
        assert words[i] in words;
      }
      DenotedBound(words);
      if |words| < |printed| {
        ShlGrows(32 * |words|, 32 * (|printed| - 1));
      }
    }
  }

  // ----- down to the characters -----

  /** The characters whose hexadecimal value has bit `b`. */
  ghost predicate HexBit(c: char, b: nat) {
    || (b == 0 && (c == '1' || c == '3' || c == '5' || c == '7' || c == '9'
                   || c == 'b' || c == 'd' || c == 'f' || c == 'B' || c == 'D' || c == 'F'))
    || (b == 1 && (c == '2' || c == '3' || c == '6' || c == '7' || c == 'a' || c == 'b'
                   || c == 'e' || c == 'f' || c == 'A' || c == 'B' || c == 'E' || c == 'F'))
    || (b == 2 && ('4' <= c <= '7' || 'c' <= c <= 'f' || 'C' <= c <= 'F'))
    || (b == 3 && ('8' <= c <= '9' || 'a' <= c <= 'f' || 'A' <= c <= 'F'))
  }

  ghost predicate HexDigit(c: char) {
    c in "0123456789abcdefABCDEF"
  }

  lemma HexCharIsDigit(c: char)
    ensures IsHexChar(c) <==> HexDigit(c)
  {
  }

  /** The hexadecimal digits with bit `b`. */
  ghost predicate HasBit(d: nat, b: nat) {
    || (b == 0 && (d == 1 || d == 3 || d == 5 || d == 7 || d == 9 || d == 11 || d == 13 || d == 15))
    || (b == 1 && (d == 2 || d == 3 || d == 6 || d == 7 || d == 10 || d == 11 || d == 14 || d == 15))
    || (b == 2 && (d == 4 || d == 5 || d == 6 || d == 7 || d == 12 || d == 13 || d == 14 || d == 15))
    || (b == 3 && 8 <= d <= 15)
  }

  lemma HalfHasBit(d: nat, b: nat)
    requires d < 16 && 0 < b < 4
    ensures HasBit(d, b) <==> HasBit(d / 2, b - 1)
  {
  }

  lemma {:induction false} SmallBits(d: nat, b: nat)
    requires d < 16 && b < 4
    ensures Bit(d, b) <==> HasBit(d, b)
  {
    if b > 0 {
      SmallBits(d / 2, b - 1);
      HalfHasBit(d, b);
    }
  }

  lemma DigitBits(c: char, b: nat)
    requires IsHexChar(c) && b < 4
    ensures Bit(DigitValue(c), b) <==> HexBit(c, b)
  {
    SmallBits(DigitValue(c), b);
  }

  /** Bit `k` of a string of digits is that of the digit k div 4 from the right. */
  lemma {:induction false} ValueBits(s: string, k: nat)
    requires AllHex(s)
    ensures Bit(Value(s), k) <==> k / 4 < |s| && HexBit(s[|s| - 1 - k / 4], k % 4)
    decreases |s|
  {
    if s == [] {
      ZeroBits(k);
    } else {
      var n := |s| - 1;
      LastDigit(s, k);
      if k < 4 {
        assert s[n] in s;
        DigitBits(s[n], k);
      } else {
        ValueBits(s[..n], k - 4);
        assert (k - 4) / 4 == k / 4 - 1 && (k - 4) % 4 == k % 4;
      }
    }
  }

  lemma LastDigit(s: string, k: nat)
    requires s != []
    ensures var n := |s| - 1;
            Bit(Value(s), k) == if k < 4 then Bit(DigitValue(s[n]), k) else Bit(Value(s[..n]), k - 4)
  {
    var high, low := Value(s[..|s| - 1]), DigitValue(s[|s| - 1]);
    Shl4(high, 0);
    Shl4(1, 0);
    ShlAddBits(high, low, 4, k);
  }

  /** A word that can be read: digits, at least one, of which all but the last eight are zeros. */
  ghost predicate GoodWord(w: string) {
    w != "" && (forall c | c in w :: HexDigit(c)) && forall i | 0 <= i < |w| - 8 :: w[i] == '0'
  }

  lemma GoodWordIff(w: string)
    ensures ParseWord(w).Some? <==> GoodWord(w)
  {
    assert AllHex(w) <==> forall c | c in w :: HexDigit(c) by {
      forall c: char
        ensures IsHexChar(c) <==> HexDigit(c)
      {
        HexCharIsDigit(c);
      }
    }
    if AllHex(w) {
      FitsIff(w);
    }
  }

  lemma FitsIff(w: string)
    requires AllHex(w)
    ensures Value(w) < WORD <==> forall i | 0 <= i < |w| - 8 :: w[i] == '0'
  {
    ShlWord(1);
    if |w| <= 8 {
      ValueBound(w);
      ShlGrows(4 * |w|, 32);
    } else {
      var n := |w| - 8;
      var head, tail := w[..n], w[n..];
      assert w == head + tail;
      ValueConcat(head, tail);
      ValueBound(tail);
      ShlWord(Value(head));
      AllHexSlice(w, 0, n);
      ZeroIff(head);
      assert forall i | 0 <= i < n :: head[i] == w[i];
    }
  }

  lemma ZeroIff(s: string)
    requires AllHex(s)
    ensures Value(s) == 0 <==> forall i | 0 <= i < |s| :: s[i] == '0'
  {
    if forall i | 0 <= i < |s| :: s[i] == '0' {
      assert s == Zeros(|s|);
      ValueZeros(|s|);
    } else {
      ValuePositive(s);
    }
  }

  /** Every text is a list of comma-free parts. */
  lemma {:induction false} PartsOf(s: string) returns (words: seq<string>)
    ensures words != [] && (forall i | 0 <= i < |words| :: NoComma(words[i])) && Join(words) == s
  {
    if s == [] {
      words := [""];
    } else {
      var rest := PartsOf(s[1..]);
      if s[0] == ',' {
        words := [""] + rest;
        assert words[1..] == rest;
      } else {
        words := [[s[0]] + rest[0]] + rest[1..];
        JoinGrows(s[0], rest);
      }
    }
  }

  lemma JoinGrows(c: char, words: seq<string>)
    requires words != []
    ensures Join([[c] + words[0]] + words[1..]) == [c] + Join(words)
  {
    var more := [[c] + words[0]] + words[1..];
    assert more[1..] == words[1..];
    if |words| > 1 {
      assert ([c] + words[0]) + "," + Join(words[1..]) == [c] + (words[0] + "," + Join(words[1..]));
    }
  }

  /** What is refused and what is read, for the comma-free parts of any text: it is refused exactly when a
      part is empty, holds another character, or has a digit that is no zero before its last eight; and
      otherwise CPU c is read exactly when the digit for it, counted from the right, has its bit. */
  lemma ReaderSpelledOut(words: seq<string>)
    requires words != [] && forall i | 0 <= i < |words| :: NoComma(words[i])
    ensures ParseMask(Join(words)).Some? <==> forall i | 0 <= i < |words| :: GoodWord(words[i])
    ensures ParseMask(Join(words)).Some? ==>
              forall c: nat :: c in ParseMask(Join(words)).value <==> c / 32 < |words| && DigitHas(words, c)
  {
    SplitJoin(words);
    forall i | 0 <= i < |words|
      ensures words[i] in words && (ParseWord(words[i]).Some? <==> GoodWord(words[i]))
    {
      GoodWordIff(words[i]);
    }
    if WellFormed(words) {
      forall c: nat
        ensures c in CpusOf(words) <==> c / 32 < |words| && DigitHas(words, c)
      {
        if c / 32 < |words| {
          HasCpuDigit(words, c);
        }
      }
    }
  }

  /** The digit for CPU `c` is there and has the bit. */
  ghost predicate DigitHas(words: seq<string>, c: nat)
    requires c / 32 < |words|
  {
    var w, d := words[|words| - 1 - c / 32], c % 32 / 4;
    d < |w| && HexBit(w[|w| - 1 - d], c % 4)
  }

  lemma HasCpuDigit(words: seq<string>, c: nat)
    requires WellFormed(words) && c / 32 < |words|
    ensures HasCpu(words, c) <==> DigitHas(words, c)
  {
    var w := words[|words| - 1 - c / 32];
    assert w in words && ParseWord(w).Some?;
    ValueBits(w, c % 32);
    assert c % 32 % 4 == c % 4;
  }

  lemma {:induction false} HexLower(m: nat)
    ensures forall c | c in Hex(m) :: c in "0123456789abcdef"
  {
    if m >= 16 {
      HexLower(m / 16);
    }
  }

  lemma Hex64Lower(m: nat)
    ensures forall i | 0 <= i < |Hex64(m)| :: Hex64(m)[i] in "0123456789abcdef"
  {
    HexLower(m);
    forall i | 0 <= i < |Hex64(m)|
      ensures Hex64(m)[i] in "0123456789abcdef"
    {
      assert Hex64(m)[i] == '0' || Hex64(m)[i] in Hex(m);
    }
  }

  lemma {:induction false} WordsFromLower(h: string, index: nat)
    requires index + 8 <= |h| && forall i | 0 <= i < |h| :: h[i] in "0123456789abcdef"
    ensures forall w, c | w in WordsFrom(h, index) && c in w :: c in "0123456789abcdef"
    decreases |h| - index
  {
    if index + 16 <= |h| {
      WordsFromLower(h, index + 8);
    }
  }

  /** The words are of eight lower-case digits. */
  lemma PrintedShape(m: nat)
    ensures PrintedWords(m) != []
    ensures forall w | w in PrintedWords(m) :: |w| == 8
    ensures forall w, c | w in PrintedWords(m) && c in w :: c in "0123456789abcdef"
  {
    PrinterExact(m);
    HexPadded(m);
    StartFits(Hex64(m), 0);
    Hex64Lower(m);
    WordsFromLower(Hex64(m), Start(Hex64(m), 0));
  }

  lemma ChunksHaveNoComma(words: seq<string>)
    requires Chunks(words)
    ensures forall i | 0 <= i < |words| :: NoComma(words[i])
  {
  }

  lemma ChunksSpelledOut(words: seq<string>, c: nat)
    requires Chunks(words)
    ensures ParseMask(Join(words)).Some?
    ensures c in ParseMask(Join(words)).value <==> c / 32 < |words| && DigitHas(words, c)
  {
    ReadChunks(words);
    ChunksHaveNoComma(words);
    ReaderSpelledOut(words);
  }

  /** What is printed, to the character: words of eight lower-case digits, in which the digit for a CPU of the
      set has its bit, where the CPUs are lowered by four for each dropped digit. */
  lemma PrinterSpelledOut(m: nat, s: set<nat>, c: nat)
    requires IsMask(m, s)
    ensures var words := PrintedWords(m);
            && (forall w | w in words :: |w| == 8)
            && (forall w, ch | w in words && ch in w :: ch in "0123456789abcdef")
            && (4 * Dropped(m) + c in s <==> c / 32 < |words| && DigitHas(words, c))
  {
    PrintedShape(m);
    PrinterExact(m);
    ChunksSpelledOut(PrintedWords(m), c);
    PrintThenRead(m, s);
  }
}
