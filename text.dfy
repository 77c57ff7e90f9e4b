/**
 * String helpers the JavaScript code gets from its runtime: decimal rendering
 * and parsing of numbers, `padStart(2, '0')`, `includes`, `startsWith`,
 * `split` on one character, and ASCII case mapping.
 */
module Text {

  predicate IsDigit(c: char) {
    '0' <= c <= '9'
  }

  predicate AllDigits(s: string) {
    forall i :: 0 <= i < |s| ==> IsDigit(s[i])
  }

  function DigitChar(d: nat): (c: char)
    requires d < 10
    ensures IsDigit(c)
  {
    ('0' as int + d) as char
  }

  /** Decimal text of a natural number, as `Number.prototype.toString()` gives it. */
  function NatToString(n: nat): (s: string)
    ensures 1 <= |s| && AllDigits(s)
    ensures |s| == 1 <==> n < 10
    decreases n
  {
    if n < 10 then [DigitChar(n)] else NatToString(n / 10) + [DigitChar(n % 10)]
  }

  /** Value of a string of decimal digits, accumulated left to right as `parseInt` does. */
  function DigitsValue(s: string): nat
    requires AllDigits(s)
    decreases |s|
  {
    if s == [] then 0 else DigitsValue(s[..|s| - 1]) * 10 + (s[|s| - 1] as int - '0' as int)
  }

  /** Parsing the decimal text of `n` gives back `n`. */
  lemma {:induction false} DigitsValueOfNatToString(n: nat)
    ensures DigitsValue(NatToString(n)) == n
    decreases n
  {
    if n >= 10 {
      var s := NatToString(n);
      assert s[..|s| - 1] == NatToString(n / 10);
      DigitsValueOfNatToString(n / 10);
    }
  }

  /** A leading zero does not change the value of a digit string. */
  lemma {:induction false} DigitsValueLeadingZero(d: string)
    requires AllDigits(d)
    ensures AllDigits("0" + d) && DigitsValue("0" + d) == DigitsValue(d)
    decreases |d|
  {
    if d != [] {
      var z := "0" + d;
      assert z[..|z| - 1] == "0" + d[..|d| - 1];
      DigitsValueLeadingZero(d[..|d| - 1]);
    }
  }

  /** `n.toString().padStart(2, '0')`. */
  function PadTwo(n: nat): string {
    var s := NatToString(n);
    if |s| < 2 then "0" + s else s
  }

  /** The padded text is all digits and reads as `n`; below 100 it has exactly two of them. */
  lemma PadTwoReadsBack(n: nat)
    ensures AllDigits(PadTwo(n)) && |PadTwo(n)| >= 2 && DigitsValue(PadTwo(n)) == n
    ensures n < 100 ==> |PadTwo(n)| == 2
  {
    DigitsValueOfNatToString(n);
    if n < 10 {
      DigitsValueLeadingZero(NatToString(n));
    } else {
      assert NatToString(n) == NatToString(n / 10) + [DigitChar(n % 10)];
    }
  }

  /** Length of the run of decimal digits at the start of `s`. */
  function DigitRun(s: string): (k: nat)
    ensures k <= |s| && AllDigits(s[..k])
    ensures k < |s| ==> !IsDigit(s[k])
    decreases |s|
  {
    if s == [] || !IsDigit(s[0]) then 0
    else
      var k := 1 + DigitRun(s[1..]);
      assert s[..k] == [s[0]] + s[1..][..k - 1];
      k
  }

  /**
   * `parseInt(s) || 0` for the strings this program ranks: the value of the
   * leading digits, and 0 when there are none.
   */
  function LeadingInt(s: string): nat {
    DigitsValue(s[..DigitRun(s)])
  }

  lemma {:induction false} DigitRunOfNumeral(d: string, t: string)
    requires AllDigits(d)
    requires t == [] || !IsDigit(t[0])
    ensures DigitRun(d + t) == |d|
    decreases |d|
  {
    if d != [] {
      assert (d + t)[1..] == d[1..] + t;
      DigitRunOfNumeral(d[1..], t);
    }
  }

  /** A number written in decimal and followed by a non-digit reads back as that number. */
  lemma LeadingIntOfNumeral(n: nat, t: string)
    requires t == [] || !IsDigit(t[0])
    ensures LeadingInt(NatToString(n) + t) == n
  {
    var d := NatToString(n);
    DigitRunOfNumeral(d, t);
    assert (d + t)[..|d|] == d;
    DigitsValueOfNatToString(n);
  }

  /** A string with no leading digit ranks as 0. */
  lemma LeadingIntOfWord(s: string)
    requires s == [] || !IsDigit(s[0])
    ensures LeadingInt(s) == 0
  {
  }

  predicate StartsWith(s: string, prefix: string) {
    |prefix| <= |s| && s[..|prefix|] == prefix
  }

  /** A string starts with whatever it was built from, and the rest is what followed. */
  lemma StartsWithConcat(p: string, x: string)
    ensures StartsWith(p + x, p) && (p + x)[|p|..] == x
  {
  }

  /** `s.includes(t)`. */
  predicate Contains(s: string, t: string)
    decreases |s|
  {
    StartsWith(s, t) || (s != [] && Contains(s[1..], t))
  }

  /** `includes` is `t` occurring at some position of `s`. */
  lemma {:induction false} ContainsAt(s: string, t: string, i: nat)
    requires i + |t| <= |s| && s[i..i + |t|] == t
    ensures Contains(s, t)
    decreases i
  {
    if i > 0 {
      assert s[1..][i - 1..i - 1 + |t|] == s[i..i + |t|];
      ContainsAt(s[1..], t, i - 1);
    }
  }

  /** `includes` finds an occurrence: the first position where `t` starts in `s`. */
  lemma {:induction false} ContainsOccurs(s: string, t: string) returns (i: nat)
    requires Contains(s, t)
    ensures i + |t| <= |s| && s[i..i + |t|] == t
    decreases |s|
  {
    if StartsWith(s, t) {
      i := 0;
    } else {
      var j := ContainsOccurs(s[1..], t);
      assert s[1..][j..j + |t|] == s[j + 1..j + 1 + |t|];
      i := j + 1;
    }
  }

  /** `t` occurs in `s` starting at position `i`. */
  predicate OccursAt(s: string, t: string, i: nat) {
    i + |t| <= |s| && s[i..i + |t|] == t
  }

  /** `s.includes(t)` holds exactly when `t` occurs in `s` at some position. */
  lemma ContainsIffOccurs(s: string, t: string)
    ensures Contains(s, t) <==> exists i :: OccursAt(s, t, i)
  {
    if Contains(s, t) {
      var i := ContainsOccurs(s, t);
      assert OccursAt(s, t, i);
    }
    forall i | OccursAt(s, t, i) ensures Contains(s, t) {
      ContainsAt(s, t, i);
    }
  }

  /** A needle with a character that does not occur in `s` is not contained in `s`. */
  lemma {:induction false} NotContainsMissingChar(s: string, t: string, k: nat)
    requires k < |t| && t[k] !in s
    ensures !Contains(s, t)
    decreases |s|
  {
    if |t| <= |s| {
      assert s[k] in s;
      assert s[..|t|][k] == s[k];
    }
    if s != [] {
      assert forall c :: c in s[1..] ==> c in s;
      NotContainsMissingChar(s[1..], t, k);
    }
  }

  /** Whatever contains a needle contains each of its prefixes. */
  lemma ContainsPrefix(s: string, t: string, u: string)
    requires Contains(s, t + u)
    ensures Contains(s, t)
  {
    var i := ContainsOccurs(s, t + u);
    assert s[i..i + |t|] == (t + u)[..|t|] == t;
    ContainsAt(s, t, i);
  }

  /** Position of the first occurrence of `c` in `s`. */
  function IndexOf(s: string, c: char): (i: nat)
    requires c in s
    ensures i < |s| && s[i] == c && c !in s[..i]
    decreases |s|
  {
    if s[0] == c then 0
    else
      var i := 1 + IndexOf(s[1..], c);
      assert s[..i] == [s[0]] + s[1..][..i - 1];
      i
  }

  /** `s.split(sep)` for a one-character separator. */
  function Split(s: string, sep: char): (parts: seq<string>)
    ensures |parts| >= 1
    decreases |s|
  {
    if sep !in s then [s]
    else
      var i := IndexOf(s, sep);
      [s[..i]] + Split(s[i + 1..], sep)
  }

  /** `parts.join(sep)`. */
  function Join(parts: seq<string>, sep: char): string
    requires |parts| >= 1
    decreases |parts|
  {
    if |parts| == 1 then parts[0] else parts[0] + [sep] + Join(parts[1..], sep)
  }

  /** Joining the pieces of a split restores the string. */
  lemma {:induction false} JoinSplit(s: string, sep: char)
    ensures Join(Split(s, sep), sep) == s
    decreases |s|
  {
    if sep in s {
      var i := IndexOf(s, sep);
      JoinSplit(s[i + 1..], sep);
      assert s == s[..i] + [sep] + s[i + 1..];
    }
  }

  lemma IndexOfAfterFreePrefix(a: string, sep: char, b: string)
    requires sep !in a
    ensures sep in a + [sep] + b && IndexOf(a + [sep] + b, sep) == |a|
  {
    var s := a + [sep] + b;
    assert s[|a|] == sep;
  }

  lemma JoinTwo(a: string, b: string, sep: char)
    ensures Join([a, b], sep) == a + [sep] + b
  {
    assert [a, b][1..] == [b];
  }

  lemma JoinThree(a: string, b: string, c: string, sep: char)
    ensures Join([a, b, c], sep) == a + [sep] + b + [sep] + c
  {
    assert [a, b, c][1..] == [b, c];
    JoinTwo(b, c, sep);
  }

  /** Splitting a join of separator-free pieces gives the pieces back. */
  lemma {:induction false} SplitJoin(parts: seq<string>, sep: char)
    requires |parts| >= 1
    requires forall k :: 0 <= k < |parts| ==> sep !in parts[k]
    ensures Split(Join(parts, sep), sep) == parts
    decreases |parts|
  {
    if |parts| > 1 {
      var rest := Join(parts[1..], sep);
      IndexOfAfterFreePrefix(parts[0], sep, rest);
      var s := parts[0] + [sep] + rest;
      assert s[..|parts[0]|] == parts[0];
      assert s[|parts[0]| + 1..] == rest;
      SplitJoin(parts[1..], sep);
    }
  }

  /** The first occurrence is the position before which `c` does not occur. */
  lemma IndexOfUnique(s: string, c: char, i: nat)
    requires i < |s| && s[i] == c && c !in s[..i]
    ensures IndexOf(s, c) == i
  {
  }

  /** The first piece of a split is the text before the first separator. */
  lemma SplitFirst(a: string, sep: char, b: string)
    requires sep !in a
    ensures Split(a + [sep] + b, sep)[0] == a
  {
    IndexOfAfterFreePrefix(a, sep, b);
    assert (a + [sep] + b)[..|a|] == a;
  }

  /** Splitting at the first separator peels off the piece before it. */
  lemma {:induction false} SplitStep(s: string, sep: char, i: nat)
    requires i < |s| && s[i] == sep && sep !in s[..i]
    ensures Split(s, sep) == [s[..i]] + Split(s[i + 1..], sep)
  {
    IndexOfUnique(s, sep, i);
  }

  /** The first separator comes no later than any separator. */
  lemma IndexOfAtMost(s: string, c: char, j: nat)
    requires j < |s| && s[j] == c
    ensures c in s && IndexOf(s, c) <= j
  {
    assert s[j] in s;
  }

  /** Peeling off the first piece leaves the last piece as it was. */
  lemma LastPieceStep(s: string, sep: char, i: nat)
    requires i < |s| && s[i] == sep && sep !in s[..i]
    ensures var parts := Split(s, sep); var later := Split(s[i + 1..], sep);
      parts[|parts| - 1] == later[|later| - 1]
  {
    SplitStep(s, sep, i);
  }

  /** When the separator at `j` is the last one, the last piece is what follows it. */
  lemma {:induction false} SplitLastAt(s: string, sep: char, j: nat)
    requires j < |s| && s[j] == sep && sep !in s[j + 1..]
    ensures var parts := Split(s, sep); parts[|parts| - 1] == s[j + 1..]
    decreases |s|
  {
    IndexOfAtMost(s, sep, j);
    var i := IndexOf(s, sep);
    LastPieceStep(s, sep, i);
    var rest := s[i + 1..];
    if i < j {
      assert rest[j - i - 1] == sep && rest[j - i..] == s[j + 1..];
      SplitLastAt(rest, sep, j - i - 1);
    } else {
      assert rest == s[j + 1..];
    }
  }

  /** The last piece of a split is the text after the last separator. */
  lemma {:induction false} SplitLast(a: string, sep: char, b: string)
    requires sep !in b
    ensures var parts := Split(a + [sep] + b, sep); parts[|parts| - 1] == b
  {
    var s := a + [sep] + b;
    assert s[|a|] == sep && s[|a| + 1..] == b;
    SplitLastAt(s, sep, |a|);
  }

  /** No piece of a split holds the separator. */
  lemma {:induction false} SplitPiecesFree(s: string, sep: char)
    ensures forall k :: 0 <= k < |Split(s, sep)| ==> sep !in Split(s, sep)[k]
    decreases |s|
  {
    if sep in s {
      var i := IndexOf(s, sep);
      SplitPiecesFree(s[i + 1..], sep);
    }
  }

  function UpperChar(c: char): char {
    if 'a' <= c <= 'z' then (c as int - 32) as char else c
  }

  function LowerChar(c: char): char {
    if 'A' <= c <= 'Z' then (c as int + 32) as char else c
  }

  /** `s.toUpperCase()` restricted to ASCII letters. */
  function ToUpper(s: string): (r: string)
    ensures |r| == |s|
    ensures forall i :: 0 <= i < |s| ==> r[i] == UpperChar(s[i])
  {
    seq(|s|, i requires 0 <= i < |s| => UpperChar(s[i]))
  }

  /** `s.toLowerCase()` restricted to ASCII letters. */
  function ToLower(s: string): (r: string)
    ensures |r| == |s|
    ensures forall i :: 0 <= i < |s| ==> r[i] == LowerChar(s[i])
  {
    seq(|s|, i requires 0 <= i < |s| => LowerChar(s[i]))
  }
}
