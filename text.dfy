/** The parts of JavaScript's string behaviour the chat widget relies on: `trim`, `join('\n')` and
    the printing of a price. The widget never splits on line breaks; `SplitLines` (`split('\n')`) is
    here only to state that joined lines come apart again. */
module Text {

  /** The characters `String.prototype.trim` removes: ECMAScript WhiteSpace and LineTerminator. */
  predicate IsSpace(c: char) {
    c == '\t' || c == '\n' || c == '\U{000B}' || c == '\U{000C}' || c == '\r' || c == ' '
    || c == '\U{00A0}' || c == '\U{1680}' || ('\U{2000}' <= c <= '\U{200A}')
    || c == '\U{2028}' || c == '\U{2029}' || c == '\U{202F}' || c == '\U{205F}'
    || c == '\U{3000}' || c == '\U{FEFF}'
  }

  predicate AllSpace(s: string) {
    forall k :: 0 <= k < |s| ==> IsSpace(s[k])
  }

  /** Drops leading white space. */
  function TrimStart(s: string): (r: string)
    ensures |r| <= |s| && r == s[|s| - |r|..]
    ensures AllSpace(s[..|s| - |r|])
    ensures r == [] || !IsSpace(r[0])
    decreases |s|
  {
    if s != [] && IsSpace(s[0]) then
      var r := TrimStart(s[1..]);
      assert s[..|s| - |r|] == [s[0]] + s[1..][..|s| - 1 - |r|];
      AllSpaceAppend([s[0]], s[1..][..|s| - 1 - |r|]);
      r
    else
      assert s[..0] == [];
      s
  }

  /** Drops trailing white space. */
  function TrimEnd(s: string): (r: string)
    ensures |r| <= |s| && r == s[..|r|]
    ensures AllSpace(s[|r|..])
    ensures r == [] || !IsSpace(r[|r| - 1])
    decreases |s|
  {
    if s != [] && IsSpace(s[|s| - 1]) then
      var r := TrimEnd(s[..|s| - 1]);
      assert s[|r|..] == s[..|s| - 1][|r|..] + [s[|s| - 1]];
      AllSpaceAppend(s[..|s| - 1][|r|..], [s[|s| - 1]]);
      r
    else
      assert s[|s|..] == [];
      s
  }

  /** `s.trim()`: `s` without its leading and trailing white space; empty exactly when `s` is blank. */
  function Trim(s: string): (r: string)
    ensures r == [] <==> AllSpace(s)
    ensures r != [] ==> !IsSpace(r[0]) && !IsSpace(r[|r| - 1])
    ensures exists a, b :: 0 <= a <= b <= |s| && r == s[a..b] && AllSpace(s[..a]) && AllSpace(s[b..])
  {
    var t := TrimStart(s);
    var r := TrimEnd(t);
    BlankSplit(s, |s| - |t|);
    BlankSplit(t, |r|);
    TrimmedSlice(s, |s| - |t|, |r|);
    r
  }

  /** The prefix `n` of the suffix from `a` is the slice from `a` to `a + n`, and the rest of the
      suffix is the suffix from `a + n`. */
  lemma TrimmedSlice(s: string, a: nat, n: nat)
    requires a + n <= |s|
    ensures s[a..][..n] == s[a..a + n] && s[a..][n..] == s[a + n..]
  {
  }

  lemma AllSpaceAppend(a: string, b: string)
    requires AllSpace(a) && AllSpace(b)
    ensures AllSpace(a + b)
  {
    forall k | 0 <= k < |a + b| ensures IsSpace((a + b)[k]) {
      if k < |a| { assert (a + b)[k] == a[k]; } else { assert (a + b)[k] == b[k - |a|]; }
    }
  }

  /** A string is blank exactly when both halves of any cut are. */
  lemma BlankSplit(s: string, n: nat)
    requires n <= |s|
    ensures AllSpace(s) <==> AllSpace(s[..n]) && AllSpace(s[n..])
  {
    if AllSpace(s[..n]) && AllSpace(s[n..]) {
      forall k | 0 <= k < |s| ensures IsSpace(s[k]) {
        if k < n { assert s[k] == s[..n][k]; } else { assert s[k] == s[n..][k - n]; }
      }
    }
  }

  /** `lines.join('\n')`. */
  function JoinLines(lines: seq<string>): (r: string)
    ensures lines == [] ==> r == ""
    ensures lines != [] ==> |lines[0]| <= |r|
    decreases |lines|
  {
    if |lines| == 0 then ""
    else if |lines| == 1 then lines[0]
    else lines[0] + "\n" + JoinLines(lines[1..])
  }

  predicate NoNewline(lines: seq<string>) {
    forall k :: 0 <= k < |lines| ==> '\n' !in lines[k]
  }

  /** Joining n lines that hold no newline puts exactly n - 1 newlines between them. */
  lemma {:induction false} JoinLinesSeparators(lines: seq<string>)
    requires lines != [] && NoNewline(lines)
    ensures multiset(JoinLines(lines))['\n'] == |lines| - 1
    decreases |lines|
  {
    if |lines| > 1 {
      JoinLinesSeparators(lines[1..]);
      assert multiset(lines[0])['\n'] == 0;
      assert JoinLines(lines) == lines[0] + "\n" + JoinLines(lines[1..]);
    } else {
      assert multiset(lines[0])['\n'] == 0;
    }
  }

  /** Position of the first `c` in `s`, or `|s|` when there is none. */
  function IndexOf(s: string, c: char): (i: nat)
    ensures i <= |s| && c !in s[..i]
    ensures i < |s| ==> s[i] == c
    decreases |s|
  {
    if s == [] then 0
    else if s[0] == c then 0
    else
      var i := 1 + IndexOf(s[1..], c);
      assert s[..i] == [s[0]] + s[1..][..i - 1];
      i
  }

  /** `s.split('\n')`: the pieces between newlines, always at least one. */
  function SplitLines(s: string): (lines: seq<string>)
    ensures lines != []
    decreases |s|
  {
    var i := IndexOf(s, '\n');
    if i == |s| then [s] else [s[..i]] + SplitLines(s[i + 1..])
  }

  lemma {:induction false} IndexOfAbsent(s: string, c: char)
    requires c !in s
    ensures IndexOf(s, c) == |s|
    decreases |s|
  {
    if s != [] {
      assert s[0] in s;
      assert forall x :: x in s[1..] ==> x in s;
      IndexOfAbsent(s[1..], c);
    }
  }

  lemma {:induction false} IndexOfFirst(a: string, c: char, b: string)
    requires c !in a
    ensures IndexOf(a + [c] + b, c) == |a|
    decreases |a|
  {
    if a != [] {
      assert a[0] in a;
      assert forall x :: x in a[1..] ==> x in a;
      assert (a + [c] + b)[1..] == a[1..] + [c] + b;
      IndexOfFirst(a[1..], c, b);
    }
  }

  /** Splitting on newlines undoes joining lines that hold none. */
  lemma {:induction false} SplitJoinLines(lines: seq<string>)
    requires lines != [] && NoNewline(lines)
    ensures SplitLines(JoinLines(lines)) == lines
    decreases |lines|
  {
    var s := JoinLines(lines);
    if |lines| == 1 {
      IndexOfAbsent(s, '\n');
    } else {
      var rest := JoinLines(lines[1..]);
      assert s == lines[0] + ['\n'] + rest;
      var n := |lines[0]|;
      IndexOfFirst(lines[0], '\n', rest);
      assert s[..n] == lines[0];
      assert s[n + 1..] == rest;
      SplitJoinLines(lines[1..]);
      assert [lines[0]] + lines[1..] == lines;
    }
  }

  /** Concatenation of a sequence of strings, first to last. */
  function Concat(parts: seq<string>): (r: string)
    ensures parts == [] ==> r == []
    decreases |parts|
  {
    if parts == [] then [] else parts[0] + Concat(parts[1..])
  }

  /** The decimal digits of `n`, as JavaScript prints a whole number. */
  function NatText(n: nat): (r: string)
    ensures r != [] && forall k :: 0 <= k < |r| ==> '0' <= r[k] <= '9'
    decreases n
  {
    var d := [(n % 10) as char + '0'];
    if n < 10 then d else NatText(n / 10) + d
  }

  predicate IsDigits(s: string) {
    s != [] && forall k :: 0 <= k < |s| ==> '0' <= s[k] <= '9'
  }

  /** The decimal value of a digit string. */
  function DigitsValue(s: string): nat
    requires IsDigits(s)
    decreases |s|
  {
    var last := (s[|s| - 1] - '0') as nat;
    if |s| == 1 then last else 10 * DigitsValue(s[..|s| - 1]) + last
  }

  /** Reading back the digits of a whole number gives the number. */
  lemma {:induction false} NatTextValue(n: nat)
    ensures IsDigits(NatText(n)) && DigitsValue(NatText(n)) == n
    decreases n
  {
    if n >= 10 {
      NatTextValue(n / 10);
      var r := NatText(n);
      assert r[..|r| - 1] == NatText(n / 10);
    }
  }

  /** How `${price}` prints an amount of cents held as a JavaScript number:
      no decimal point for a whole amount, and no trailing zero after it otherwise.
      This holds for amounts of at most 15 significant digits (below 10^13 dollars); JavaScript
      prints larger amounts with rounded digits, and amounts from 10^21 dollars on in exponent form. */
  function PriceText(price: nat): (r: string)
    ensures r != [] && '\n' !in r && ']' !in r
  {
    var whole := NatText(price / 100);
    var cents := price % 100;
    assert forall k :: 0 <= k < |whole| ==> whole[k] != '\n' && whole[k] != ']';
    if cents == 0 then whole
    else if cents % 10 == 0 then whole + "." + [(cents / 10) as char + '0']
    else whole + "." + [(cents / 10) as char + '0', (cents % 10) as char + '0']
  }

  /** Reads a printed price back into cents: the digits before `.`, and one or two digits after it. */
  function PriceValue(s: string): nat {
    var i := IndexOf(s, '.');
    var whole := s[..i];
    var fraction := if i < |s| then s[i + 1..] else "";
    (if IsDigits(whole) then 100 * DigitsValue(whole) else 0)
    + (if |fraction| == 1 && IsDigits(fraction) then 10 * DigitsValue(fraction)
       else if |fraction| == 2 && IsDigits(fraction) then DigitsValue(fraction)
       else 0)
  }

  /** A printed price reads back as the amount it prints. */
  lemma {:induction false} PriceTextValue(price: nat)
    ensures PriceValue(PriceText(price)) == price
  {
    var whole := NatText(price / 100);
    var cents := price % 100;
    NatTextValue(price / 100);
    assert '.' !in whole by {
      forall k | 0 <= k < |whole| ensures whole[k] != '.' {}
    }
    var s := PriceText(price);
    if cents == 0 {
      IndexOfAbsent(whole, '.');
      assert s[..|whole|] == whole;
    } else {
      var fraction := s[|whole| + 1..];
      IndexOfFirst(whole, '.', fraction);
      assert s == whole + ['.'] + fraction;
      assert s[..|whole|] == whole;
      var tens := (cents / 10) as char + '0';
      var ones := (cents % 10) as char + '0';
      if cents % 10 == 0 {
        assert fraction == [tens];
        assert DigitsValue(fraction) == cents / 10;
      } else {
        assert fraction == [tens, ones];
        assert fraction[..1] == [tens];
        assert DigitsValue(fraction) == 10 * (cents / 10) + cents % 10;
      }
    }
  }

  /** How the catalog's prices print: whole amounts without a decimal point, cents with two digits. */
  lemma PriceTextExamples()
    ensures PriceText(9900) == "99" && PriceText(5999) == "59.99"
  {
  }

  /** A trailing zero after the decimal point is not printed. */
  lemma PriceTextTrailingZero()
    ensures PriceText(1950) == "19.5"
  {
  }
}
