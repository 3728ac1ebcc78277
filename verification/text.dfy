/**
  * The Python string primitives the scheduler front end is built from, over `seq<char>`:
  * whitespace stripping, `split`/`join` on one separator, `split()` on whitespace runs,
  * ASCII case mapping, substring tests, and `int()` / `str()` on integers.
  */
module Text {
  import opened Wrappers

  /** Whitespace as Python's `str.isspace` and the regex class `\s` see it, restricted to ASCII. */
  predicate IsSpace(c: char) {
    c == ' ' || (9 <= c as int <= 13) || (28 <= c as int <= 31)
  }

  predicate NotSpace(c: char) { !IsSpace(c) }

  predicate IsDigit(c: char) { '0' <= c <= '9' }

  predicate IsAsciiLetter(c: char) { ('a' <= c <= 'z') || ('A' <= c <= 'Z') }

  predicate AllSpace(s: string) { forall i :: 0 <= i < |s| ==> IsSpace(s[i]) }

  predicate AllDigits(s: string) { forall i :: 0 <= i < |s| ==> IsDigit(s[i]) }

  predicate StartsWith(s: string, p: string) { |p| <= |s| && s[..|p|] == p }

  predicate EndsWith(s: string, p: string) { |p| <= |s| && s[|s| - |p|..] == p }

  /** `t` occurs in `s` starting at index `i`. */
  predicate OccursAt(s: string, t: string, i: nat) { i + |t| <= |s| && s[i..i + |t|] == t }

  /** Python's `t in s` for strings. */
  predicate Contains(s: string, t: string) { exists i: nat | i <= |s| :: OccursAt(s, t, i) }

  // ---------------------------------------------------------------------------------------
  // Runs of characters and stripping

  /** End of the maximal run of characters satisfying `p` that starts at `i`. */
  function RunEnd(s: string, i: nat, p: char -> bool): (k: nat)
    requires i <= |s|
    ensures i <= k <= |s|
    ensures forall j :: i <= j < k ==> p(s[j])
    ensures k == |s| || !p(s[k])
    decreases |s| - i
  {
    if i == |s| || !p(s[i]) then i else RunEnd(s, i + 1, p)
  }

  /** Start of the maximal run of characters satisfying `p` that ends at `j`, not going below `lo`. */
  function RunStart(s: string, lo: nat, j: nat, p: char -> bool): (k: nat)
    requires lo <= j <= |s|
    ensures lo <= k <= j
    ensures forall m :: k <= m < j ==> p(s[m])
    ensures k == lo || !p(s[k - 1])
    decreases j - lo
  {
    if j == lo || !p(s[j - 1]) then j else RunStart(s, lo, j - 1, p)
  }

  /** The run end is the only index with the run-end property. */
  lemma RunEndIs(s: string, i: nat, p: char -> bool, k: nat)
    requires i <= k <= |s|
    requires forall j :: i <= j < k ==> p(s[j])
    requires k == |s| || !p(s[k])
    ensures RunEnd(s, i, p) == k
  {
  }

  lemma RunStartIs(s: string, lo: nat, j: nat, p: char -> bool, k: nat)
    requires lo <= k <= j <= |s|
    requires forall m :: k <= m < j ==> p(s[m])
    requires k == lo || !p(s[k - 1])
    ensures RunStart(s, lo, j, p) == k
  {
  }

  /** Python's `s.strip()`: the text left after removing leading and trailing whitespace. */
  function Strip(s: string): (r: string)
    ensures |r| <= |s|
    ensures |r| > 0 ==> !IsSpace(r[0]) && !IsSpace(r[|r| - 1])
  {
    var a := RunEnd(s, 0, IsSpace);
    var b := RunStart(s, a, |s|, IsSpace);
    s[a..b]
  }

  /** What `Strip` removes is whitespace on both ends, and nothing else. */
  lemma StripInfix(s: string)
    ensures var r := Strip(s);
      exists i :: 0 <= i <= |s| - |r| && r == s[i..i + |r|] && AllSpace(s[..i]) && AllSpace(s[i + |r|..])
  {
    var a := RunEnd(s, 0, IsSpace);
    var b := RunStart(s, a, |s|, IsSpace);
    assert AllSpace(s[..a]);
    assert AllSpace(s[b..]);
    assert Strip(s) == s[a..a + (b - a)];
  }

  /** Every character of the stripped text comes from the original. */
  lemma StripChars(s: string)
    ensures forall k :: 0 <= k < |Strip(s)| ==> Strip(s)[k] in s
  {
    var a := RunEnd(s, 0, IsSpace);
    var r := Strip(s);
    assert forall k :: 0 <= k < |r| ==> r[k] == s[a + k];
  }

  /** Text without surrounding whitespace is its own strip. */
  lemma StripNoop(s: string)
    requires |s| == 0 || (!IsSpace(s[0]) && !IsSpace(s[|s| - 1]))
    ensures Strip(s) == s
  {
    if |s| > 0 {
      RunEndIs(s, 0, IsSpace, 0);
      RunStartIs(s, 0, |s|, IsSpace, |s|);
    }
  }

  /** The stripped text is empty exactly when the text is all whitespace. */
  lemma StripEmpty(s: string)
    ensures |Strip(s)| == 0 <==> AllSpace(s)
  {
    if AllSpace(s) {
      RunEndIs(s, 0, IsSpace, |s|);
    } else {
      var i :| 0 <= i < |s| && !IsSpace(s[i]);
      var a := RunEnd(s, 0, IsSpace);
      var b := RunStart(s, a, |s|, IsSpace);
      assert a <= i < b;
    }
  }

  /** Text that starts with a key without blanks at its ends keeps the key, and its start, when stripped. */
  lemma StripKeepsKey(s: string, key: string)
    requires StartsWith(s, key) && |key| > 0 && !IsSpace(key[0]) && !IsSpace(key[|key| - 1])
    ensures |Strip(s)| >= |key| && Strip(s) == s[..|Strip(s)|]
  {
    RunEndIs(s, 0, IsSpace, 0);
    assert s[|key| - 1] == key[|key| - 1];
  }

  /** Python's `s.rstrip(c)`: the text without its trailing run of `c`. */
  function TrimEnd(s: string, c: char): (r: string)
    ensures StartsWith(s, r)
    ensures |r| == 0 || r[|r| - 1] != c
    ensures forall j :: |r| <= j < |s| ==> s[j] == c
  {
    s[..RunStart(s, 0, |s|, (x: char) => x == c)]
  }

  /** One more trailing `c` is trimmed away with the rest. */
  lemma TrimEndAppend(s: string, c: char)
    ensures TrimEnd(s + [c], c) == TrimEnd(s, c)
  {
    var t := s + [c];
    var k := RunStart(s, 0, |s|, (x: char) => x == c);
    assert forall m :: k <= m < |t| ==> t[m] == c;
    RunStartIs(t, 0, |t|, (x: char) => x == c, k);
    assert t[..k] == s[..k];
  }

  /** Text that does not end in `c` is left as it is. */
  lemma TrimEndNoop(s: string, c: char)
    requires |s| == 0 || s[|s| - 1] != c
    ensures TrimEnd(s, c) == s
  {
    RunStartIs(s, 0, |s|, (x: char) => x == c, |s|);
  }

  // ---------------------------------------------------------------------------------------
  // split / join on one separator character

  /** Python's `parts_joined = c.join(parts)`. */
  function Join(parts: seq<string>, c: char): string
    decreases |parts|
  {
    if |parts| == 0 then ""
    else if |parts| == 1 then parts[0]
    else parts[0] + [c] + Join(parts[1..], c)
  }

  lemma JoinCons(x: char, parts: seq<string>, c: char)
    requires |parts| >= 1
    ensures Join([[x] + parts[0]] + parts[1..], c) == [x] + Join(parts, c)
  {
    var q := [[x] + parts[0]] + parts[1..];
    assert q[1..] == parts[1..];
  }

  /** Python's `s.split(c)`: never empty, and no piece holds the separator. */
  function Split(s: string, c: char): (r: seq<string>)
    ensures |r| >= 1
    ensures forall k :: 0 <= k < |r| ==> c !in r[k]
    decreases |s|
  {
    if |s| == 0 then [""]
    else
      var rest := Split(s[1..], c);
      if s[0] == c then
        [""] + rest
      else
        var r := [[s[0]] + rest[0]] + rest[1..];
        assert forall k :: 1 <= k < |r| ==> r[k] == rest[k];
        r
  }

  /** Joining the pieces of a split with the separator gives the text back. */
  lemma {:induction false} JoinSplit(s: string, c: char)
    ensures Join(Split(s, c), c) == s
    decreases |s|
  {
    if |s| > 0 {
      var rest := Split(s[1..], c);
      JoinSplit(s[1..], c);
      assert s == [s[0]] + s[1..];
      if s[0] == c {
        assert ([""] + rest)[1..] == rest;
      } else {
        JoinCons(s[0], rest, c);
      }
    }
  }

  /** Splitting a concatenation at a separator splits each side independently. */
  lemma {:induction false} SplitConcat(a: string, b: string, c: char)
    ensures Split(a + [c] + b, c) == Split(a, c) + Split(b, c)
    decreases |a|
  {
    if |a| == 0 {
      assert a + [c] + b == [c] + b;
      assert ([c] + b)[1..] == b;
    } else {
      assert (a + [c] + b)[1..] == a[1..] + [c] + b;
      SplitConcat(a[1..], b, c);
    }
  }

  /** Joining pieces that do not hold the separator and splitting again gives the pieces back. */
  lemma {:induction false} SplitJoin(parts: seq<string>, c: char)
    requires |parts| >= 1
    requires forall k :: 0 <= k < |parts| ==> c !in parts[k]
    ensures Split(Join(parts, c), c) == parts
    decreases |parts|
  {
    if |parts| == 1 {
      SplitNoSeparator(parts[0], c);
    } else {
      SplitJoin(parts[1..], c);
      SplitConcat(parts[0], Join(parts[1..], c), c);
      SplitNoSeparator(parts[0], c);
      assert parts == [parts[0]] + parts[1..];
    }
  }

  lemma {:induction false} SplitNoSeparator(s: string, c: char)
    requires c !in s
    ensures Split(s, c) == [s]
    decreases |s|
  {
    if |s| > 0 {
      SplitNoSeparator(s[1..], c);
      assert s == [s[0]] + s[1..];
    }
  }

  /** The first piece of a split is the text before the first separator. */
  lemma SplitFirst(a: string, c: char, b: string)
    requires c !in a
    ensures Split(a + [c] + b, c)[0] == a
  {
    SplitConcat(a, b, c);
    SplitNoSeparator(a, c);
  }

  /** A text with exactly one separator splits into the two sides. */
  lemma SplitTwo(a: string, c: char, b: string)
    requires c !in a && c !in b
    ensures Split(a + [c] + b, c) == [a, b]
  {
    SplitConcat(a, b, c);
    SplitNoSeparator(a, c);
    SplitNoSeparator(b, c);
  }

  /** A piece without the separator, then the separator: the piece is the first field. */
  lemma SplitFront(w: string, c: char, z: string)
    requires c !in w
    ensures Split(w + [c] + z, c) == [w] + Split(z, c)
  {
    SplitConcat(w, z, c);
    SplitNoSeparator(w, c);
  }

  /** A field assembled from two pieces, then the separator: the assembled piece is the first field. */
  lemma SplitGlue(p: string, x: string, c: char, z: string)
    requires c !in p && c !in x
    ensures Split(p + (x + ([c] + z)), c) == [p + x] + Split(z, c)
  {
    assert p + (x + ([c] + z)) == (p + x) + [c] + z;
    SplitFront(p + x, c, z);
  }

  /** A text with exactly two separators splits into the three pieces around them. */
  lemma SplitThree(a: string, c: char, b: string, d: string)
    requires c !in a && c !in b && c !in d
    ensures Split(a + [c] + b + [c] + d, c) == [a, b, d]
  {
    SplitConcat(a + [c] + b, d, c);
    SplitTwo(a, c, b);
    SplitNoSeparator(d, c);
    assert [a, b] + [d] == [a, b, d];
  }

  /**
    * Python's `s.split(c)[-1]` is the text after the last separator: a suffix of `s`, right after
    * a separator when there is one.
    */
  lemma {:induction false} SplitLast(s: string, c: char)
    ensures var r := Split(s, c); EndsWith(s, r[|r| - 1])
    ensures var r := Split(s, c); c in s ==> |r[|r| - 1]| < |s| && s[|s| - |r[|r| - 1]| - 1] == c
    decreases |s|
  {
    if |s| > 0 {
      SplitLast(s[1..], c);
      SplitLastStep(s, c);
      var rest := Split(s[1..], c);
      if s[0] == c {
        if c !in s[1..] {
          SplitNoSeparator(s[1..], c);
        }
      } else if |rest| == 1 {
        assert c !in s[1..] by {
          JoinSplit(s[1..], c);
          assert rest == [rest[0]];
        }
      }
    }
  }

  /** The last piece of a non-empty text: the last piece of its tail, or the whole text. */
  lemma SplitLastStep(s: string, c: char)
    requires |s| > 0
    ensures var r := Split(s, c); var rest := Split(s[1..], c);
      r[|r| - 1] == if s[0] == c || |rest| > 1 then rest[|rest| - 1] else s
  {
    var rest := Split(s[1..], c);
    if s[0] != c && |rest| == 1 {
      JoinSplit(s[1..], c);
      assert rest == [rest[0]];
    }
  }

  /** A decimal numeral holds no character other than digits. */
  lemma NotInDigits(s: string, c: char)
    requires AllDigits(s) && !IsDigit(c)
    ensures c !in s
  {
  }

  // ---------------------------------------------------------------------------------------
  // Runs and whitespace-separated words

  predicate IsWord(w: string) { |w| > 0 && forall j :: 0 <= j < |w| ==> !IsSpace(w[j]) }

  /** Python's `s.split()` with no argument: the non-empty runs of non-whitespace. */
  function Words(s: string): seq<string>
    decreases |s|
  {
    var a := RunEnd(s, 0, IsSpace);
    if a == |s| then []
    else
      var k := RunEnd(s, a, NotSpace);
      assert NotSpace(s[a]);
      [s[a..k]] + Words(s[k..])
  }

  /** A text that starts with a word: its first word is that word, the rest comes from the remainder. */
  lemma WordsFront(w: string, rest: string)
    requires IsWord(w)
    requires |rest| == 0 || IsSpace(rest[0])
    ensures Words(w + rest) == [w] + Words(rest)
  {
    var s := w + rest;
    RunEndIs(s, 0, IsSpace, 0);
    forall j | 0 <= j < |w| ensures NotSpace(s[j]) { assert s[j] == w[j]; }
    RunEndIs(s, 0, NotSpace, |w|);
    assert s[0..|w|] == w;
    assert s[|w|..] == rest;
  }

  /** A leading blank does not change the words. */
  lemma WordsLeadingSpace(x: string)
    ensures Words([' '] + x) == Words(x)
  {
    var s := [' '] + x;
    var a := RunEnd(x, 0, IsSpace);
    LeadingSpaceRun(x);
    if a < |x| {
      var k := RunEnd(x, a, NotSpace);
      LeadingSpaceWord(x, a, k);
      WordsStep(s, a + 1, k + 1);
      WordsStep(x, a, k);
    }
  }

  /** A leading blank lengthens the leading run of blanks by one. */
  lemma LeadingSpaceRun(x: string)
    ensures RunEnd([' '] + x, 0, IsSpace) == RunEnd(x, 0, IsSpace) + 1
  {
    var s := [' '] + x;
    assert RunEnd(s, 0, IsSpace) == RunEnd(s, 1, IsSpace) by { assert IsSpace(s[0]); }
    RunEndShift(' ', x, 0, IsSpace);
  }

  /** The first word of `x` is the first word of `x` after a blank, one position later. */
  lemma LeadingSpaceWord(x: string, a: nat, k: nat)
    requires a <= |x| && k == RunEnd(x, a, NotSpace)
    ensures var s := [' '] + x; RunEnd(s, a + 1, NotSpace) == k + 1 && s[a + 1..k + 1] == x[a..k] && s[k + 1..] == x[k..]
  {
    RunEndShift(' ', x, a, NotSpace);
    var s := [' '] + x;
    assert s[a + 1..k + 1] == x[a..k];
    assert s[k + 1..] == x[k..];
  }

  /** The words of a text whose first word spans `a` to `k`. */
  lemma WordsStep(s: string, a: nat, k: nat)
    requires a < |s| && RunEnd(s, 0, IsSpace) == a && k <= |s| && RunEnd(s, a, NotSpace) == k
    ensures Words(s) == [s[a..k]] + Words(s[k..])
  {
  }

  /** A run in a text with one more character in front ends one position later. */
  lemma {:induction false} RunEndShift(y: char, x: string, i: nat, p: char -> bool)
    requires i <= |x|
    ensures RunEnd([y] + x, i + 1, p) == RunEnd(x, i, p) + 1
    decreases |x| - i
  {
    if i < |x| {
      assert ([y] + x)[i + 1] == x[i];
      if p(x[i]) {
        RunEndShift(y, x, i + 1, p);
      }
    }
  }

  /** Splitting on whitespace undoes joining non-empty, blank-free tokens with single spaces. */
  lemma {:induction false} WordsJoin(ws: seq<string>)
    requires forall k :: 0 <= k < |ws| ==> IsWord(ws[k])
    ensures Words(Join(ws, ' ')) == ws
    decreases |ws|
  {
    if |ws| == 0 {
    } else if |ws| == 1 {
      WordsFront(ws[0], "");
      assert ws[0] + "" == ws[0];
    } else {
      var w := ws[0];
      assert IsWord(w);
      var x := Join(ws[1..], ' ');
      assert Join(ws, ' ') == w + ([' '] + x);
      WordsFront(w, [' '] + x);
      WordsLeadingSpace(x);
      WordsJoin(ws[1..]);
      FrontRest(ws);
    }
  }

  /** A non-empty list is its first element followed by the rest. */
  lemma FrontRest<T>(s: seq<T>)
    requires |s| > 0
    ensures [s[0]] + s[1..] == s
  {
  }

  // ---------------------------------------------------------------------------------------
  // ASCII case mapping

  function UpperChar(c: char): char {
    if 'a' <= c <= 'z' then (c as int - 32) as char else c
  }

  function LowerChar(c: char): char {
    if 'A' <= c <= 'Z' then (c as int + 32) as char else c
  }

  /** Python's `s.upper()` on ASCII letters. */
  function Upper(s: string): string {
    seq(|s|, i requires 0 <= i < |s| => UpperChar(s[i]))
  }

  /** Python's `s.lower()` on ASCII letters. */
  function Lower(s: string): string {
    seq(|s|, i requires 0 <= i < |s| => LowerChar(s[i]))
  }

  predicate IsUpperCase(s: string) { forall i :: 0 <= i < |s| ==> !('a' <= s[i] <= 'z') }

  lemma UpperIsUpperCase(s: string)
    ensures IsUpperCase(Upper(s))
  {
  }

  /** Python's `a <= b` on strings: lexicographic by code point, a prefix first. */
  predicate LexLe(a: string, b: string)
    decreases |a|
  {
    |a| == 0 || (|b| > 0 && (a[0] < b[0] || (a[0] == b[0] && LexLe(a[1..], b[1..]))))
  }

  lemma {:induction false} LexLeTotal(a: string, b: string)
    ensures LexLe(a, b) || LexLe(b, a)
    decreases |a|
  {
    if |a| > 0 && |b| > 0 && a[0] == b[0] {
      LexLeTotal(a[1..], b[1..]);
    }
  }

  lemma {:induction false} LexLeTrans(a: string, b: string, c: string)
    requires LexLe(a, b) && LexLe(b, c)
    ensures LexLe(a, c)
    decreases |a|
  {
    if |a| > 0 && a[0] == b[0] && b[0] == c[0] {
      LexLeTrans(a[1..], b[1..], c[1..]);
    }
  }

  /** Two strings each at most the other are equal. */
  lemma {:induction false} LexLeAntisymmetric(a: string, b: string)
    requires LexLe(a, b) && LexLe(b, a)
    ensures a == b
    decreases |a|
  {
    if |a| > 0 {
      LexLeAntisymmetric(a[1..], b[1..]);
      assert a == [a[0]] + a[1..] && b == [b[0]] + b[1..];
    }
  }

  // ---------------------------------------------------------------------------------------
  // Integers: Python's int() and str()

  function DigitValue(c: char): nat
    requires IsDigit(c)
  {
    c as int - '0' as int
  }

  function DigitChar(d: nat): char
    requires d < 10
  {
    ('0' as int + d) as char
  }

  /** The value of a run of decimal digits, most significant first. */
  function DigitsValue(s: string): nat
    requires AllDigits(s)
    decreases |s|
  {
    if |s| == 0 then 0 else DigitsValue(s[..|s| - 1]) * 10 + DigitValue(s[|s| - 1])
  }

  /** Python's `str(n)` for a non-negative integer: canonical decimal digits with the value `n`. */
  function NatToString(n: nat): (r: string)
    ensures |r| > 0 && AllDigits(r) && DigitsValue(r) == n
    ensures r[0] == '0' ==> n == 0
    decreases n
  {
    if n < 10 then
      [DigitChar(n)]
    else
      var p := NatToString(n / 10);
      var r := p + [DigitChar(n % 10)];
      assert r[..|r| - 1] == p;
      r
  }

  /** Python's `max(a, b)` on integers. */
  function Max(a: int, b: int): (r: int)
    ensures r >= a && r >= b && (r == a || r == b)
  {
    if a >= b then a else b
  }

  /** Python's `str(i)`. */
  function IntToString(i: int): string {
    if i < 0 then "-" + NatToString(-i) else NatToString(i)
  }

  /** A rendered integer holds only digits and possibly a leading minus sign. */
  lemma IntToStringChars(i: int, c: char)
    requires !IsDigit(c) && c != '-'
    ensures c !in IntToString(i)
  {
    NotInDigits(NatToString(if i < 0 then -i else i), c);
  }

  /** Python's `f"{m:02d}"` for a non-negative integer. */
  function Pad2(m: nat): string {
    if m < 10 then "0" + NatToString(m) else NatToString(m)
  }

  /**
    * Python's `int(s)` on text: surrounding whitespace is ignored, an optional sign, then at
    * least one decimal digit. `None` is the `ValueError`.
    */
  function ParseInt(s: string): (r: Option<int>)
    ensures r.Some? ==> |Strip(s)| > 0
  {
    var t := Strip(s);
    if |t| == 0 then None
    else if t[0] == '-' || t[0] == '+' then
      var d := t[1..];
      if |d| > 0 && AllDigits(d) then
        Some(if t[0] == '-' then -(DigitsValue(d) as int) else DigitsValue(d))
      else None
    else if AllDigits(t) then
      Some(DigitsValue(t))
    else None
  }

  /** Only a text with a minus sign parses to a negative number. */
  lemma ParseIntNonNegative(s: string)
    requires '-' !in s
    ensures ParseInt(s).Some? ==> ParseInt(s).value >= 0
  {
    StripChars(s);
    var t := Strip(s);
    if |t| > 0 { assert t[0] in s; }
  }

  /** `int(str(i)) == i`. */
  lemma ParseIntOfString(i: int)
    ensures ParseInt(IntToString(i)) == Some(i)
  {
    var s := IntToString(i);
    if i < 0 {
      var d := NatToString(-i);
      assert s[1..] == d;
      assert !IsSpace(s[0]) && !IsSpace(s[|s| - 1]) by {
        assert s[|s| - 1] == d[|d| - 1];
        assert IsDigit(d[|d| - 1]);
      }
      StripNoop(s);
    } else {
      var d := NatToString(i);
      assert IsDigit(d[0]) && IsDigit(d[|d| - 1]);
      StripNoop(s);
    }
  }

  /** `int(f"{m:02d}") == m`: the zero padding does not change the value. */
  lemma ParseIntOfPad2(m: nat)
    ensures ParseInt(Pad2(m)) == Some(m)
  {
    if m < 10 {
      var s := Pad2(m);
      assert s == ['0', DigitChar(m)];
      assert s[..1] == ['0'];
      assert DigitsValue(s) == DigitsValue(['0']) * 10 + m;
      StripNoop(s);
    } else {
      ParseIntOfString(m);
    }
  }
}
