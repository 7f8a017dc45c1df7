/**
  CPU masks (pkg/controller/performanceprofile/components/utils.go): printing a set
  of CPUs as a comma separated list of hexadecimal words, and reading such a list,
  the mask format of cpuset(7).
 */
module CpuMask {
  import opened Prelude
  import opened Bits

  // ----- hexadecimal digits -----

  function DigitChar(d: nat): char
    requires d < 16
  {
    "0123456789abcdef"[d]
  }

  predicate IsHexChar(c: char) {
    '0' <= c <= '9' || 'a' <= c <= 'f' || 'A' <= c <= 'F'
  }

  function DigitValue(c: char): (d: nat)
    ensures d < 16
  {
    if '0' <= c <= '9' then (c - '0') as nat
    else if 'a' <= c <= 'f' then (c - 'a') as nat + 10
    else if 'A' <= c <= 'F' then (c - 'A') as nat + 10
    else 0
  }

  lemma DigitRoundTrip(d: nat)
    requires d < 16
    ensures DigitValue(DigitChar(d)) == d && IsHexChar(DigitChar(d)) && (DigitChar(d) == '0' <==> d == 0)
  {
  }

  /** The number a string of digits stands for. */
  function Value(s: string): nat {
    if s == [] then 0 else 16 * Value(s[..|s| - 1]) + DigitValue(s[|s| - 1])
  }

  predicate AllHex(s: string) {
    forall c | c in s :: IsHexChar(c)
  }

  // ----- printing -----

  /** %x */
  function Hex(m: nat): string {
    if m < 16 then [DigitChar(m)] else Hex(m / 16) + [DigitChar(m % 16)]
  }

  function Zeros(n: nat): string {
    seq(n, i => '0')
  }

  /** %064x: padded with zeros to 64 digits, longer when the number needs more. */
  function Hex64(m: nat): string {
    var h := Hex(m);
    if |h| < 64 then Zeros(64 - |h|) + h else h
  }

  function SetOf(cpus: seq<nat>): set<nat> {
    set c | c in cpus
  }

  /** CPUListToHexMask, on the CPUs that the list parses to. */
  method CPUListToHexMask(cpus: seq<nat>) returns (hexMask: string)
    ensures exists m :: IsMask(m, SetOf(cpus)) && hexMask == Hex64(m)
  {
    var currMask := 0;
    forall k: nat
      ensures !Bit(0, k)
    {
      ZeroBits(k);
    }
    for i := 0 to |cpus|
      invariant IsMask(currMask, SetOf(cpus[..i]))
    {
      var x := Shl(1, cpus[i]);
      ghost var before := currMask;
      currMask := Or(currMask, x);
      assert cpus[..i + 1] == cpus[..i] + [cpus[i]];
      forall k: nat
        ensures Bit(currMask, k) <==> k in SetOf(cpus[..i + 1])
      {
        OrBits(before, x, k);
        OneBit(cpus[i], k);
      }
    }
    assert cpus[..|cpus|] == cpus;
    hexMask := Hex64(currMask);
  }

  /** Where printing starts: after the leading zero words, but no later than the last word. */
  function Start(h: string, index: nat): (r: nat)
    requires index <= |h|
    ensures index <= r <= |h|
    decreases |h| - index
  {
    if index + 8 < |h| && h[index..index + 8] == "00000000" then Start(h, index + 8) else index
  }

  /** The words from `index` on, as long as whole words are left. */
  function WordsFrom(h: string, index: nat): (r: seq<string>)
    requires index + 8 <= |h|
    ensures r != []
    decreases |h| - index
  {
    if index + 16 <= |h| then [h[index..index + 8]] + WordsFrom(h, index + 8) else [h[index..index + 8]]
  }

  /** Words separated by commas. */
  function Join(words: seq<string>): string
    requires words != []
  {
    if |words| == 1 then words[0] else words[0] + "," + Join(words[1..])
  }

  /** The first digit is not a zero when there are more than 64. */
  predicate Padded(h: string) {
    |h| >= 64 && (|h| > 64 ==> h[0] != '0')
  }

  lemma {:induction false} StartFits(h: string, index: nat)
    requires Padded(h) && index % 8 == 0 && index + 8 <= |h| && (index > 0 ==> |h| == 64)
    ensures Start(h, index) + 8 <= |h| && Start(h, index) % 8 == 0 && (Start(h, index) > 0 ==> |h| == 64)
    decreases |h| - index
  {
    assert h[index..index + 8][0] == h[index] && "00000000"[0] == '0';
    if index + 8 < |h| && h[index..index + 8] == "00000000" {
      StartFits(h, index + 8);
    }
  }

  function PrintedWords(m: nat): seq<string> {
    var h := Hex64(m);
    HexPadded(m);
    StartFits(h, 0);
    WordsFrom(h, Start(h, 0))
  }

  lemma {:induction false} HexFacts(m: nat)
    ensures Value(Hex(m)) == m && AllHex(Hex(m)) && (m > 0 ==> Hex(m)[0] != '0') && |Hex(m)| > 0
  {
    if m < 16 {
      DigitRoundTrip(m);
      assert Hex(m)[..0] == [];
    } else {
      HexFacts(m / 16);
      DigitRoundTrip(m % 16);
      assert Hex(m)[..|Hex(m)| - 1] == Hex(m / 16);
    }
  }

  lemma HexPadded(m: nat)
    ensures Padded(Hex64(m)) && AllHex(Hex64(m))
  {
    HexFacts(m);
    if m == 0 {
      assert |Hex(m)| == 1;
    }
  }

  /** Writing a word and a comma leaves the rest of the list to be written. */
  lemma JoinStep(buffer: string, word: string, rest: seq<string>)
    requires rest != []
    ensures buffer + Join([word] + rest) == buffer + word + "," + Join(rest)
  {
    assert ([word] + rest)[1..] == rest;
    Associates(buffer, word, ",", Join(rest));
  }

  lemma Associates(a: string, b: string, c: string, d: string)
    ensures a + (b + c + d) == a + b + c + d
  {
  }

  /** The loops of CPUListToMaskList on the padded string. */
  method PrintWords(maskStr: string) returns (list: string)
    requires Padded(maskStr)
    ensures Start(maskStr, 0) + 8 <= |maskStr| && list == Join(WordsFrom(maskStr, Start(maskStr, 0)))
  {
    StartFits(maskStr, 0);
    var index := 0;
    while index < |maskStr| - 8
      invariant index <= |maskStr| && Start(maskStr, 0) == Start(maskStr, index)
    {
      if maskStr[index..index + 8] != "00000000" {
        break;
      }
      index := index + 8;
    }
    list := PrintWordsFrom(maskStr, index);
  }

  /** The second loop: every whole word from `start` on. */
  method PrintWordsFrom(maskStr: string, start: nat) returns (list: string)
    requires start + 8 <= |maskStr|
    ensures list == Join(WordsFrom(maskStr, start))
  {
    var index := start;
    var buffer := "";
    while index <= |maskStr| - 16
      invariant index + 8 <= |maskStr|
      invariant buffer + Join(WordsFrom(maskStr, index)) == Join(WordsFrom(maskStr, start))
    {
      JoinStep(buffer, maskStr[index..index + 8], WordsFrom(maskStr, index + 8));
      buffer := buffer + maskStr[index..index + 8];
      buffer := buffer + ",";
      index := index + 8;
    }
    buffer := buffer + maskStr[index..index + 8];
    list := buffer;
  }

  /** CPUListToMaskList; None stands for a list that does not parse, whose error is swallowed. */
  method CPUListToMaskList(cpus: Option<seq<nat>>) returns (list: string)
    ensures cpus.None? ==> list == ""
    ensures cpus.Some? ==> exists m :: IsMask(m, SetOf(cpus.value)) && list == Join(PrintedWords(m))
  {
    if cpus.None? {
      return "";
    }
    var maskStr := CPUListToHexMask(cpus.value);
    ghost var mask :| IsMask(mask, SetOf(cpus.value)) && maskStr == Hex64(mask);
    HexPadded(mask);
    list := PrintWords(maskStr);
    assert PrintedWords(mask) == WordsFrom(maskStr, Start(maskStr, 0));
  }

  // ----- reading -----

  function Split(s: string): (r: seq<string>)
    ensures r != []
  {
    if s == [] then [""] else
      var rest := Split(s[1..]);
      if s[0] == ',' then [""] + rest else [[s[0]] + rest[0]] + rest[1..]
  }

  /** strconv.ParseUint(word, 16, 32) */
  function ParseWord(word: string): Option<nat> {
    if word != "" && AllHex(word) && Value(word) < WORD then Some(Value(word)) else None
  }

  predicate WellFormed(words: seq<string>) {
    words != [] && forall w | w in words :: ParseWord(w).Some?
  }

  /** CPU `c` is bit c mod 32 of the (c div 32)-th word from the right. */
  predicate HasCpu(words: seq<string>, c: nat)
    requires c / 32 < |words|
  {
    var word := ParseWord(words[|words| - 1 - c / 32]);
    word.Some? && Bit(word.value, c % 32)
  }

  function CpusOf(words: seq<string>): set<nat> {
    set c: nat | c < 32 * |words| && HasCpu(words, c)
  }

  function ParseMask(s: string): Option<set<nat>> {
    if WellFormed(Split(s)) then Some(CpusOf(Split(s))) else None
  }

  method ReverseInPlace(chunks: array<string>)
    modifies chunks
    ensures forall k | 0 <= k < chunks.Length :: chunks[k] == old(chunks[chunks.Length - 1 - k])
  {
    var n := chunks.Length;
    for i := 0 to n / 2
      invariant forall k | 0 <= k < i :: chunks[k] == old(chunks[n - 1 - k]) && chunks[n - 1 - k] == old(chunks[k])
      invariant forall k | i <= k < n - i :: chunks[k] == old(chunks[k])
    {
      chunks[i], chunks[n - i - 1] := chunks[n - i - 1], chunks[i];
    }
  }

  /** The bit loop over the word with index `i` from the right. */
  method AddWord(word: nat, i: nat, before: set<nat>) returns (builder: set<nat>)
    ensures forall c: nat :: c in builder <==> c in before || (c / 32 == i && Bit(word, c % 32))
  {
    builder := before;
    var mask := word;
    for j := 0 to 32
      invariant mask == Shr(word, j)
      invariant forall c: nat :: c in builder <==> c in before || (c / 32 == i && c % 32 < j && Bit(word, c % 32))
    {
      ShrBits(word, j, 0);
      ShrSum(word, j, 1);
      assert (i * 32 + j) / 32 == i && (i * 32 + j) % 32 == j;
      if mask % 2 == 1 {
        builder := builder + {i * 32 + j};
      }
      mask := mask / 2;
    }
  }

  method CPUMaskToCPUSet(cpuMask: string) returns (r: Option<set<nat>>)
    ensures r == ParseMask(cpuMask)
  {
    var words := Split(cpuMask);
    var n := |words|;
    var chunks := new string[n](i requires 0 <= i < n => words[i]);
    ReverseInPlace(chunks);
    var builder: set<nat> := {};
    for i := 0 to n
      invariant forall k | 0 <= k < n :: chunks[k] == words[n - 1 - k]
      invariant forall k | n - i <= k < n :: ParseWord(words[k]).Some?
      invariant forall c: nat :: c in builder <==> c / 32 < i && HasCpu(words, c)
    {
      var parsed := ParseWord(chunks[i]);
      assert chunks[i] == words[n - 1 - i];
      if parsed.None? {
        assert words[n - 1 - i] in words;
        return None;
      }
      builder := AddWord(parsed.value, i, builder);
    }
    assert forall k | 0 <= k < n :: ParseWord(words[k]).Some?;
    assert builder == CpusOf(words);
    r := Some(builder);
  }
}
