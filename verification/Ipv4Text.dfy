/**
Dotted quads: the printer inet_ntop of netdb_wrap.c and the parser smoltcp_parse_ipv4 of
lib.rs, with Rust's `str::split` and `str::parse::<u8>`.
 */
module Ipv4Text {
  import opened Basics
  import opened Ipv4Words
  import opened Splitting

  // ----- numbers -----

  predicate IsDigit(c: char) { '0' <= c <= '9' }

  function DigitOf(c: char): nat
    requires IsDigit(c)
  {
    c as int - '0' as int
  }

  function ToDigit(n: nat): char
    requires n < 10
  {
    ['0', '1', '2', '3', '4', '5', '6', '7', '8', '9'][n]
  }

  predicate AllDigits(s: string) {
    forall k :: 0 <= k < |s| ==> IsDigit(s[k])
  }

  function ValueOf(s: string): nat
    requires AllDigits(s)
  {
    if s == [] then 0 else 10 * ValueOf(s[..|s| - 1]) + DigitOf(s[|s| - 1])
  }

  /** What `parse::<u8>` accepts: an optional plus sign, then one or more digits worth at most 255. */
  function ParseU8(s: string): Option<Byte> {
    var d := if s != [] && s[0] == '+' then s[1..] else s;
    if d != [] && AllDigits(d) && ValueOf(d) <= 255 then Some(ValueOf(d)) else None
  }

  /** `%u` of one octet. */
  function Print8(b: Byte): string {
    if b < 10 then [ToDigit(b)]
    else if b < 100 then [ToDigit(b / 10), ToDigit(b % 10)]
    else [ToDigit(b / 100), ToDigit(b / 10 % 10), ToDigit(b % 10)]
  }

  lemma DigitBack(n: nat)
    requires n < 10
    ensures IsDigit(ToDigit(n)) && DigitOf(ToDigit(n)) == n && ToDigit(n) != '+' && ToDigit(n) != '.'
  {
  }

  lemma ValuePush(s: string, n: nat)
    requires AllDigits(s) && n < 10
    ensures AllDigits(s + [ToDigit(n)]) && ValueOf(s + [ToDigit(n)]) == 10 * ValueOf(s) + n
  {
    DigitBack(n);
    hide ToDigit;
    assert (s + [ToDigit(n)])[..|s|] == s;
  }

  /** The digits of the printed octet are all digits and worth the octet. */
  lemma Print8Value(b: Byte)
    ensures AllDigits(Print8(b)) && Print8(b) != [] && ValueOf(Print8(b)) == b
  {
    hide ToDigit;
    var none: string := [];
    assert AllDigits(none) && ValueOf(none) == 0;
    if b < 10 {
      ValuePush(none, b);
      assert Print8(b) == none + [ToDigit(b)];
    } else if b < 100 {
      ValuePush(none, b / 10);
      ValuePush(none + [ToDigit(b / 10)], b % 10);
      assert Print8(b) == none + [ToDigit(b / 10)] + [ToDigit(b % 10)];
    } else {
      var two := none + [ToDigit(b / 100)] + [ToDigit(b / 10 % 10)];
      ValuePush(none, b / 100);
      ValuePush(none + [ToDigit(b / 100)], b / 10 % 10);
      ValuePush(two, b % 10);
      assert Print8(b) == two + [ToDigit(b % 10)];
    }
  }

  /** No leading zero, so the text is the only one of its value that `%u` could print. */
  lemma Print8Canonical(b: Byte)
    ensures |Print8(b)| == (if b < 10 then 1 else if b < 100 then 2 else 3)
    ensures b >= 10 ==> Print8(b)[0] != '0'
  {
  }

  lemma Print8Parses(b: Byte)
    ensures ParseU8(Print8(b)) == Some(b)
    ensures '.' !in Print8(b)
  {
    Print8Value(b);
    hide Print8;
    hide ValueOf;
    assert !IsDigit('+') && !IsDigit('.');
  }

  // ----- the parser -----

  predicate ParsesAs(parts: seq<string>, o: Octets) {
    |parts| == 4 && forall k :: 0 <= k < 4 ==> ParseU8(parts[k]) == Some(o[k])
  }

  /** The parser loop: four octets in order exactly if the text has four parts that each parse. */
  method ParseOctets(s: string) returns (r: Option<Octets>)
    ensures r.Some? ==> ParsesAs(Split(s, '.'), r.value)
    ensures r.None? ==> forall o: Octets :: !ParsesAs(Split(s, '.'), o)
  {
    var parts := Split(s, '.');
    var octets: Octets := [0, 0, 0, 0];
    var i := 0;
    for k := 0 to |parts|
      invariant i == k <= 4
      invariant forall n :: 0 <= n < k ==> ParseU8(parts[n]) == Some(octets[n])
    {
      if i >= 4 {
        return None;
      }
      var v := ParseU8(parts[k]);
      if v.None? {
        return None;
      }
      octets := octets[i := v.value];
      i := i + 1;
    }
    if i != 4 {
      return None;
    }
    return Some(octets);
  }

  lemma ParseIsUnique(parts: seq<string>, a: Octets, b: Octets)
    requires ParsesAs(parts, a) && ParsesAs(parts, b)
    ensures a == b
  {
    assert forall k :: 0 <= k < 4 ==> ParseU8(parts[k]) == Some(a[k]);
  }

  /** smoltcp_parse_ipv4: the word it stores. */
  method ParseIpv4(s: string) returns (w: Option<nat>)
    ensures forall o: Octets :: ParsesAs(Split(s, '.'), o) ==> w == Some(FromBe(o))
    ensures w.None? <==> forall o: Octets :: !ParsesAs(Split(s, '.'), o)
  {
    var r := ParseOctets(s);
    if r.None? {
      return None;
    }
    assert ParsesAs(Split(s, '.'), r.value);
    forall o: Octets | ParsesAs(Split(s, '.'), o)
      ensures o == r.value
    {
      ParseIsUnique(Split(s, '.'), o, r.value);
    }
    return Some(FromBe(r.value));
  }

  // ----- round trips -----

  /** inet_ntop: the bytes in memory, first byte first. */
  function Ntop(o: Octets): string {
    Print8(o[0]) + "." + (Print8(o[1]) + "." + (Print8(o[2]) + "." + Print8(o[3])))
  }

  lemma SplitFour(a: string, b: string, c: string, d: string)
    requires '.' !in a && '.' !in b && '.' !in c && '.' !in d
    ensures Split(a + "." + (b + "." + (c + "." + d)), '.') == [a, b, c, d]
  {
    SplitPlain(d, '.');
    SplitAtSeparator(c, '.', d);
    SplitAtSeparator(b, '.', c + "." + d);
    SplitAtSeparator(a, '.', b + "." + (c + "." + d));
    hide Split;
    assert [a] + ([b] + ([c] + [d])) == [a, b, c, d];
  }

  /** For all four octets the printed text is accepted, and the octets come back in order. */
  lemma PrintedParsesBack(o: Octets)
    ensures ParsesAs(Split(Ntop(o), '.'), o)
  {
    hide Print8;
    hide ParseU8;
    hide Split;
    Print8Parses(o[0]);
    Print8Parses(o[1]);
    Print8Parses(o[2]);
    Print8Parses(o[3]);
    SplitFour(Print8(o[0]), Print8(o[1]), Print8(o[2]), Print8(o[3]));
  }

  function Reversed(o: Octets): Octets { [o[3], o[2], o[1], o[0]] }

  /** The parser's word has the octets backwards in memory. */
  lemma ParsedWordIsReversed(o: Octets)
    ensures ToLe(FromBe(o)) == Reversed(o)
    ensures FromBe(o) == Swap(FromLe(o))
  {
    ToFromLe(Reversed(o));
    ReadingsSwap(o);
  }

  /** A text is what the printer prints for some octets only if they are the ones it parses to. */
  lemma PrintsOnlyIts(s: string, o: Octets, q: Octets)
    requires ParsesAs(Split(s, '.'), o) && Ntop(q) == s
    ensures q == o
  {
    PrintedParsesBack(q);
    ParseIsUnique(Split(s, '.'), q, o);
  }

  /** inet_pton stores the parser's word, inet_ntop prints the bytes in memory. For every text
      that parses, pton then ntop gives the text back exactly if it is written the way ntop
      prints (no plus sign or leading zero) and the address reads the same backwards. */
  lemma PtonThenNtopIff(s: string, o: Octets)
    requires ParsesAs(Split(s, '.'), o)
    ensures Ntop(ToLe(FromBe(o))) == s <==> s == Ntop(o) && o[0] == o[3] && o[1] == o[2]
  {
    ParsedWordIsReversed(o);
    hide Ntop;
    hide ParsesAs;
    if Ntop(Reversed(o)) == s {
      PrintsOnlyIts(s, o, Reversed(o));
    }
    assert o[0] == o[3] && o[1] == o[2] ==> Reversed(o) == o;
  }

  /** Two texts that do not come back: the default static address, which does not read the
      same backwards, and a palindromic one with a leading zero. */
  lemma PtonThenNtopWitness()
    ensures var o := [192, 168, 1, 50]; ParsesAs(Split(Ntop(o), '.'), o) && Ntop(ToLe(FromBe(o))) != Ntop(o)
    ensures var o := [1, 0, 0, 1];
            ParsesAs(Split("01.0.0.1", '.'), o) && Ntop(ToLe(FromBe(o))) != "01.0.0.1"
  {
    var o, q: Octets := [192, 168, 1, 50], [1, 0, 0, 1];
    assert Ntop(q)[0] == '1';
    PrintedParsesBack(o);
    LeadingZeroParses();
    hide ParsesAs;
    hide Ntop;
    PtonThenNtopIff(Ntop(o), o);
    PtonThenNtopIff("01.0.0.1", q);
    hide Split;
    hide FromBe;
    hide ToLe;
  }

  lemma LeadingZeroParses()
    ensures ParsesAs(Split("01.0.0.1", '.'), [1, 0, 0, 1])
  {
    hide Split;
    SplitFour("01", "0", "0", "1");
    assert "01" + "." + ("0" + "." + ("0" + "." + "1")) == "01.0.0.1";
    assert "01"[..1] == "0" && "0"[..0] == "" && "1"[..0] == "";
    assert ValueOf("") == 0;
    assert ValueOf("0") == 0 && ValueOf("1") == 1;
    assert ValueOf("01") == 1;
  }
}
