/** Text helpers the composer relies on: the whitespace trim that decides
    whether a message is blank, the integer formatting that template literals
    perform when a coordinate is written into a path string, and the inverse
    readers (digit parsing, splitting on single spaces) that show the path
    strings lose no information.
 */
module Text {

  datatype Option<+T> = None | Some(value: T)

  // ---------------------------------------------------------------------------
  // Trimming
  // ---------------------------------------------------------------------------

  /** The characters String.prototype.trim removes: the ECMAScript
      WhiteSpace set (tab, vertical tab, form feed, the byte-order mark and
      the Unicode space separators) and the LineTerminator set (line feed,
      carriage return, line and paragraph separators). */
  predicate IsSpace(c: char) {
    || c == '\t' || c == '\U{0B}' || c == '\U{0C}' || c == '\U{FEFF}'
    || c == ' ' || c == '\U{A0}' || c == '\U{1680}'
    || ('\U{2000}' <= c <= '\U{200A}')
    || c == '\U{202F}' || c == '\U{205F}' || c == '\U{3000}'
    || c == '\n' || c == '\r' || c == '\U{2028}' || c == '\U{2029}'
  }

  /** Every character of `s` is whitespace (the empty string is blank). */
  predicate IsBlank(s: string) {
    forall i :: 0 <= i < |s| ==> IsSpace(s[i])
  }

  /** Drops leading whitespace: the result is a suffix of `s`, what was
      dropped is blank, and the result does not start with whitespace. */
  function TrimStart(s: string): (r: string)
    ensures |r| <= |s| && r == s[|s| - |r|..]
    ensures IsBlank(s[..|s| - |r|])
    ensures |r| > 0 ==> !IsSpace(r[0])
  {
    if |s| > 0 && IsSpace(s[0]) then
      var r := TrimStart(s[1..]);
      assert s[..|s| - |r|] == [s[0]] + s[1..][..|s[1..]| - |r|];
      r
    else
      s
  }

  /** Drops trailing whitespace: the result is a prefix of `s`, what was
      dropped is blank, and the result does not end with whitespace. */
  function TrimEnd(s: string): (r: string)
    ensures |r| <= |s| && r == s[..|r|]
    ensures IsBlank(s[|r|..])
    ensures |r| > 0 ==> !IsSpace(r[|r| - 1])
  {
    if |s| > 0 && IsSpace(s[|s| - 1]) then
      var r := TrimEnd(s[..|s| - 1]);
      assert s[|r|..] == s[..|s| - 1][|r|..] + [s[|s| - 1]];
      r
    else
      s
  }

  /** How many whitespace characters open `s`. */
  function LeadingBlanks(s: string): (k: nat)
    ensures k <= |s|
  {
    if |s| > 0 && IsSpace(s[0]) then 1 + LeadingBlanks(s[1..]) else 0
  }

  lemma {:induction false} TrimStartDrops(s: string)
    ensures |s| - |TrimStart(s)| == LeadingBlanks(s)
  {
    if |s| > 0 && IsSpace(s[0]) {
      TrimStartDrops(s[1..]);
    }
  }

  /** `message.trim()`: the trimmed text is empty exactly when the message
      is blank, and otherwise neither starts nor ends with whitespace. */
  function Trim(s: string): (r: string)
    ensures r == [] <==> IsBlank(s)
    ensures |r| > 0 ==> !IsSpace(r[0]) && !IsSpace(r[|r| - 1])
    ensures |r| <= |s|
  {
    var t := TrimStart(s);
    var r := TrimEnd(t);
    TrimBothEnds(s, t, r);
    r
  }

  /** The trimmed text is the part of the message between its leading
      whitespace and a blank tail. */
  // `k` names LeadingBlanks(s) so that the solver works with one term for
  // it; stated with LeadingBlanks(s) written out, the facts cost far more.
  lemma TrimKeepsMiddle(s: string, k: nat)
    requires k == LeadingBlanks(s)
    ensures k + |Trim(s)| <= |s|
    ensures Trim(s) == s[k..k + |Trim(s)|]
    ensures IsBlank(s[..k])
    ensures IsBlank(s[k + |Trim(s)|..])
  {
    var t := TrimStart(s);
    var r := TrimEnd(t);
    assert Trim(s) == r;
    TrimMiddle(s, t, r, k);
  }

  lemma TrimBothEnds(s: string, t: string, r: string)
    requires t == TrimStart(s) && r == TrimEnd(t)
    ensures r == [] <==> IsBlank(s)
    ensures |r| > 0 ==> !IsSpace(r[0])
  {
    if r == [] {
      assert IsBlank(t) by {
        assert t[|r|..] == t;
      }
      assert s == s[..|s| - |t|] + t;
    } else {
      assert r[0] == t[0];
    }
  }

  /** Trimming the front and then the back leaves the middle of `s` between
      its leading blanks and a blank tail. */
  lemma TrimMiddle(s: string, t: string, r: string, k: nat)
    requires t == TrimStart(s) && r == TrimEnd(t) && k == LeadingBlanks(s)
    ensures k + |r| <= |s|
    ensures r == s[k..k + |r|]
    ensures IsBlank(s[..k])
    ensures IsBlank(s[k + |r|..])
  {
    TrimStartDrops(s);
    assert t == s[k..];
    SliceOfSlice(s, k, r);
    assert IsBlank(t[|r|..]);
  }

  /** A prefix of a suffix is a middle slice, and what follows it is the
      rest of the suffix. */
  lemma SliceOfSlice(s: string, k: nat, r: string)
    requires k <= |s| && |r| <= |s| - k && r == s[k..][..|r|]
    ensures r == s[k..k + |r|]
    ensures s[k + |r|..] == s[k..][|r|..]
  {
  }

  // ---------------------------------------------------------------------------
  // Decimal formatting and parsing
  // ---------------------------------------------------------------------------

  predicate IsDigit(c: char) {
    '0' <= c <= '9'
  }

  predicate AllDigits(s: string) {
    forall i :: 0 <= i < |s| ==> IsDigit(s[i])
  }

  /** A string that cannot be split: it holds no separator space. */
  predicate NoSpace(s: string) {
    forall i :: 0 <= i < |s| ==> s[i] != ' '
  }

  function DigitValue(c: char): (d: nat)
    requires IsDigit(c)
    ensures d < 10
  {
    c as int - '0' as int
  }

  function DigitChar(d: nat): (c: char)
    requires d < 10
    ensures IsDigit(c) && DigitValue(c) == d
  {
    (d + '0' as int) as char
  }

  /** Decimal digits of `n`, most significant first, no leading zeros. */
  function ShowNat(n: nat): (r: string)
    ensures |r| > 0 && AllDigits(r)
    ensures |r| > 1 ==> r[0] != '0'
  {
    if n < 10 then [DigitChar(n)]
    else
      var p := ShowNat(n / 10);
      p + [DigitChar(n % 10)]
  }

  /** The decimal rendering a template literal gives an integer: a minus sign
      for negatives, then the digits of the magnitude. */
  function ShowInt(x: int): (r: string)
    ensures |r| > 0 && NoSpace(r)
    ensures x < 0 <==> r[0] == '-'
  {
    var digits := ShowNat(if x < 0 then -x else x);
    assert digits[0] != '-';
    if x < 0 then "-" + digits else digits
  }

  /** The value of a string of decimal digits (0 for the empty string). */
  function ParseNat(s: string): nat
    requires AllDigits(s)
  {
    if |s| == 0 then 0
    else 10 * ParseNat(s[..|s| - 1]) + DigitValue(s[|s| - 1])
  }

  /** Reads back an integer in the form ShowInt writes; anything else is None. */
  function ParseInt(t: string): Option<int> {
    if |t| > 1 && t[0] == '-' && AllDigits(t[1..]) then Some(0 - ParseNat(t[1..]) as int)
    else if |t| > 0 && AllDigits(t) then Some(ParseNat(t))
    else None
  }

  lemma {:induction false} ParseShowNat(n: nat)
    ensures ParseNat(ShowNat(n)) == n
  {
    if n >= 10 {
      var r := ShowNat(n);
      ParseShowNat(n / 10);
      assert r[..|r| - 1] == ShowNat(n / 10);
    }
  }

  /** Integer formatting is invertible. */
  lemma ParseShowInt(x: int)
    ensures ParseInt(ShowInt(x)) == Some(x)
  {
    if x < 0 {
      ParseShowNat(-x);
      assert ShowInt(x)[1..] == ShowNat(-x);
    } else {
      ParseShowNat(x);
    }
  }

  // ---------------------------------------------------------------------------
  // Space-separated tokens
  // ---------------------------------------------------------------------------

  /** Tokens written one after another with a single space between them. */
  function Join(ts: seq<string>): string {
    if |ts| == 0 then ""
    else if |ts| == 1 then ts[0]
    else ts[0] + " " + Join(ts[1..])
  }

  /** Cuts a string at every space; there is always at least one token. */
  function Split(s: string): (r: seq<string>)
    ensures |r| > 0
  {
    if |s| == 0 then [""]
    else
      var rest := Split(s[1..]);
      if s[0] == ' ' then [""] + rest
      else [[s[0]] + rest[0]] + rest[1..]
  }

  lemma {:induction false} SplitNoSpace(t: string)
    requires NoSpace(t)
    ensures Split(t) == [t]
  {
    if |t| > 0 {
      SplitNoSpace(t[1..]);
      assert [t[0]] + t[1..] == t;
    }
  }

  lemma {:induction false} SplitAtFirstSpace(t: string, u: string)
    requires NoSpace(t)
    ensures Split(t + " " + u) == [t] + Split(u)
  {
    if |t| == 0 {
      assert t + " " + u == [' '] + u;
      assert (t + " " + u)[1..] == u;
    } else {
      var s := t + " " + u;
      assert s[1..] == t[1..] + " " + u;
      SplitAtFirstSpace(t[1..], u);
      assert [t[0]] + t[1..] == t;
    }
  }

  /** Splitting undoes joining when no token holds a space. */
  lemma {:induction false} SplitJoin(ts: seq<string>)
    requires |ts| > 0
    requires forall i :: 0 <= i < |ts| ==> NoSpace(ts[i])
    ensures Split(Join(ts)) == ts
  {
    if |ts| == 1 {
      SplitNoSpace(ts[0]);
    } else {
      SplitJoin(ts[1..]);
      SplitAtFirstSpace(ts[0], Join(ts[1..]));
      assert [ts[0]] + ts[1..] == ts;
    }
  }

  /** Joining two non-empty token lists puts one space between their texts. */
  lemma {:induction false} JoinAppend(a: seq<string>, b: seq<string>)
    requires |a| > 0 && |b| > 0
    ensures Join(a + b) == Join(a) + " " + Join(b)
  {
    if |a| == 1 {
      assert (a + b)[1..] == b;
    } else {
      assert (a + b)[1..] == a[1..] + b;
      JoinAppend(a[1..], b);
    }
  }
}
