/** Python `str` operations that the assistant's parsers rely on, on strings seen as
    sequences of code points: `strip`, `lower`, `in`, `find`, `split`, `int()` and
    the integer formatting of f-strings and `zfill`. */
module Text {
  import opened Wrappers

  // ---------------------------------------------------------------------------
  // White space, `strip()` and `split()`
  // ---------------------------------------------------------------------------

  /** Python's `str.isspace()`: the code points that `strip()`, `split()`, `int()`
      and the regular-expression class `\s` treat as white space. */
  predicate IsSpace(c: char) {
    || ('\t' <= c <= '\r')
    || ('\U{1C}' <= c <= ' ')
    || c == '\U{85}' || c == '\U{A0}' || c == '\U{1680}'
    || ('\U{2000}' <= c <= '\U{200A}')
    || c == '\U{2028}' || c == '\U{2029}' || c == '\U{202F}' || c == '\U{205F}' || c == '\U{3000}'
  }

  /** `s.lstrip()`: the suffix of `s` that starts at its first non-space character. */
  function TrimStart(s: string): (r: string)
    ensures |r| <= |s| && r == s[|s| - |r|..]
    ensures r == [] || !IsSpace(r[0])
    ensures forall i :: 0 <= i < |s| - |r| ==> IsSpace(s[i])
  {
    if s != [] && IsSpace(s[0]) then TrimStart(s[1..]) else s
  }

  /** `s.rstrip()`: the prefix of `s` that ends at its last non-space character. */
  function TrimEnd(s: string): (r: string)
    ensures |r| <= |s| && r == s[..|r|]
    ensures r == [] || !IsSpace(r[|r| - 1])
    ensures forall i :: |r| <= i < |s| ==> IsSpace(s[i])
  {
    if s != [] && IsSpace(s[|s| - 1]) then TrimEnd(s[..|s| - 1]) else s
  }

  /** `s.strip()`: white space removed from both ends. */
  function Strip(s: string): (r: string)
    ensures r == [] || (!IsSpace(r[0]) && !IsSpace(r[|r| - 1]))
    ensures r == [] <==> forall i :: 0 <= i < |s| ==> IsSpace(s[i])
  {
    TrimEnd(TrimStart(s))
  }

  /** `strip()` keeps every character that is not white space and adds none. */
  lemma StripChars(s: string)
    ensures forall i :: 0 <= i < |s| && !IsSpace(s[i]) ==> s[i] in Strip(s)
    ensures forall c :: c in Strip(s) ==> c in s
  {
    var t := TrimStart(s);
    TrimStartChars(s);
    TrimEndChars(t);
  }

  lemma TrimStartChars(s: string)
    ensures forall i :: 0 <= i < |s| && !IsSpace(s[i]) ==> s[i] in TrimStart(s)
    ensures forall c :: c in TrimStart(s) ==> c in s
  {
    TrimStartKeeps(s);
    TrimStartAddsNone(s);
  }

  lemma TrimStartKeeps(s: string)
    ensures forall i :: 0 <= i < |s| && !IsSpace(s[i]) ==> s[i] in TrimStart(s)
  {
    var t := TrimStart(s);
    forall i | 0 <= i < |s| && !IsSpace(s[i]) ensures s[i] in t {
      SuffixHolds(s, |s| - |t|, i);
    }
  }

  lemma SuffixHolds(s: string, k: nat, i: nat)
    requires k <= i < |s|
    ensures s[i] in s[k..]
  {
    assert s[k..][i - k] == s[i];
  }

  lemma TrimStartAddsNone(s: string)
    ensures forall c :: c in TrimStart(s) ==> c in s
  {
    var t := TrimStart(s);
    forall c | c in t ensures c in s {
      var j :| 0 <= j < |t| && t[j] == c;
      assert s[j + (|s| - |t|)] == c;
    }
  }

  lemma TrimEndChars(s: string)
    ensures forall c :: c in s && !IsSpace(c) ==> c in TrimEnd(s)
    ensures forall c :: c in TrimEnd(s) ==> c in s
  {
    var r := TrimEnd(s);
    assert forall i :: 0 <= i < |s| && !IsSpace(s[i]) ==> s[i] == r[i];
  }

  /** A string that neither starts nor ends with white space is its own `strip()`. */
  lemma StripNoop(s: string)
    requires s == [] || (!IsSpace(s[0]) && !IsSpace(s[|s| - 1]))
    ensures Strip(s) == s
  {
  }

  /** `strip()` is idempotent. */
  lemma StripIdempotent(s: string)
    ensures Strip(Strip(s)) == Strip(s)
  {
    StripNoop(Strip(s));
  }

  /** The index of the first white-space character at or after `from`, or `|s|`. */
  function SpaceFrom(s: string, from: nat): (k: nat)
    requires from <= |s|
    ensures from <= k <= |s|
    ensures k < |s| ==> IsSpace(s[k])
    ensures forall i :: from <= i < k ==> !IsSpace(s[i])
    decreases |s| - from
  {
    if from == |s| || IsSpace(s[from]) then from else SpaceFrom(s, from + 1)
  }

  /** `s.split()[0]`, or `None` where Python raises `IndexError` (a blank string). */
  function FirstWord(s: string): (w: Option<string>)
    ensures w.None? <==> forall i :: 0 <= i < |s| ==> IsSpace(s[i])
    ensures w.Some? ==> w.value != [] && forall i :: 0 <= i < |w.value| ==> !IsSpace(w.value[i])
  {
    var t := TrimStart(s);
    if t == [] then None else Some(t[..SpaceFrom(t, 0)])
  }

  /** The first word of a string that starts with a word followed by white space or
      nothing. */
  lemma FirstWordOf(w: string, rest: string)
    requires w != [] && (forall i :: 0 <= i < |w| ==> !IsSpace(w[i]))
    requires rest == [] || IsSpace(rest[0])
    ensures FirstWord(w + rest) == Some(w)
  {
    var s := w + rest;
    assert !IsSpace(s[0]);
    assert TrimStart(s) == s;
    if rest != [] { assert IsSpace(s[|w|]); }
    assert SpaceFrom(s, 0) == |w|;
    assert s[..|w|] == w;
  }

  // ---------------------------------------------------------------------------
  // Case and substrings
  // ---------------------------------------------------------------------------

  predicate IsUpper(c: char) { 'A' <= c <= 'Z' }

  predicate IsAsciiLetter(c: char) { 'a' <= c <= 'z' || 'A' <= c <= 'Z' }

  function LowerChar(c: char): char {
    if IsUpper(c) then (c as int + 32) as char else c
  }

  /** `s.lower()` on the ASCII letters. */
  function Lower(s: string): (r: string)
    ensures |r| == |s| && forall i :: 0 <= i < |s| ==> r[i] == LowerChar(s[i])
  {
    if s == [] then [] else [LowerChar(s[0])] + Lower(s[1..])
  }

  /** `pat` occurs in `s` starting at index `i`. */
  predicate OccursAt(s: string, pat: string, i: int) {
    0 <= i && i + |pat| <= |s| && s[i..i + |pat|] == pat
  }

  /** `s.find(pat, from)`: the first index at or after `from` where `pat` occurs. */
  function IndexOf(s: string, pat: string, from: nat): (r: Option<nat>)
    ensures r.Some? ==> from <= r.value && OccursAt(s, pat, r.value)
    ensures r.Some? ==> forall k :: from <= k < r.value ==> !OccursAt(s, pat, k)
    ensures r.None? ==> forall k :: from <= k ==> !OccursAt(s, pat, k)
    decreases |s| - from
  {
    if from + |pat| > |s| then None
    else if s[from..from + |pat|] == pat then Some(from)
    else IndexOf(s, pat, from + 1)
  }

  /** Python's `pat in s`. */
  predicate Contains(s: string, pat: string)
    ensures Contains(s, pat) <==> exists k :: OccursAt(s, pat, k)
  {
    IndexOf(s, pat, 0).Some?
  }

  /** A one-character pattern occurs exactly where that character is. */
  lemma OccursAtChar(s: string, c: char, k: int)
    ensures OccursAt(s, [c], k) <==> 0 <= k < |s| && s[k] == c
  {
    if 0 <= k < |s| {
      assert s[k..k + 1] == [s[k]];
    }
  }

  lemma ContainsChar(s: string, c: char)
    ensures Contains(s, [c]) <==> c in s
  {
    if c in s {
      var k :| 0 <= k < |s| && s[k] == c;
      OccursAtChar(s, c, k);
    }
    if Contains(s, [c]) {
      var k :| OccursAt(s, [c], k);
      OccursAtChar(s, c, k);
    }
  }

  /** Two characters side by side form a two-character occurrence. */
  lemma PairAt(s: string, i: int, a: char, b: char)
    requires 0 <= i && i + 2 <= |s| && s[i] == a && s[i + 1] == b
    ensures Contains(s, [a, b])
  {
    assert s[i..i + 2] == [a, b];
    assert OccursAt(s, [a, b], i);
  }

  /** `s.find(pat, from)` is `i` when `pat` occurs at `i` and nowhere between `from`
      and `i`. */
  lemma IndexOfFirst(s: string, pat: string, from: nat, i: nat)
    requires from <= i && OccursAt(s, pat, i)
    requires forall k :: from <= k < i ==> !OccursAt(s, pat, k)
    ensures IndexOf(s, pat, from) == Some(i)
  {
  }

  /** `pat` occurs in `a + pat + b` right after `a`. */
  lemma OccursBetween(a: string, pat: string, b: string)
    ensures OccursAt(a + pat + b, pat, |a|)
  {
    assert (a + pat + b)[|a|..|a| + |pat|] == pat;
  }

  /** A pair whose first letter no character of `s` lowers to does not occur in `s.lower()`. */
  lemma AbsentPair(s: string, a: char, b: char)
    requires forall k :: 0 <= k < |s| ==> LowerChar(s[k]) != a
    ensures !Contains(Lower(s), [a, b])
  {
    forall k ensures !OccursAt(Lower(s), [a, b], k) {
      if 0 <= k && k + 2 <= |s| {
        assert Lower(s)[k..k + 2][0] == Lower(s)[k];
      }
    }
  }

  /** A character whose lower case is an ASCII letter is an ASCII letter. */
  lemma LowerCharLetter(c: char)
    requires 'a' <= LowerChar(c) <= 'z'
    ensures IsAsciiLetter(c)
  {
  }

  /** `s.split(sep)`: the pieces between the occurrences of `sep`. */
  function Split(s: string, sep: char): (parts: seq<string>)
    ensures |parts| >= 1
    ensures sep !in s ==> parts == [s]
    decreases |s|
  {
    match IndexOf(s, [sep], 0)
    case None =>
      assert sep !in s by { ContainsChar(s, sep); }
      [s]
    case Some(i) =>
      OccursAtChar(s, sep, i);
      [s[..i]] + Split(s[i + 1..], sep)
  }

  /** Splitting at the first separator. */
  lemma SplitFirst(a: string, b: string, sep: char)
    requires sep !in a
    ensures Split(a + [sep] + b, sep) == [a] + Split(b, sep)
  {
    var s := a + [sep] + b;
    forall k | 0 <= k < |a| ensures !OccursAt(s, [sep], k) {
      OccursAtChar(s, sep, k);
    }
    OccursAtChar(s, sep, |a|);
    assert IndexOf(s, [sep], 0) == Some(|a|);
    assert s[..|a|] == a && s[|a| + 1..] == b;
  }

  /** A string with exactly one separator splits into the two sides. */
  lemma SplitOnce(a: string, b: string, sep: char)
    requires sep !in a && sep !in b
    ensures Split(a + [sep] + b, sep) == [a, b]
  {
    SplitFirst(a, b, sep);
  }

  /** A string with exactly two separators splits into the three pieces between them. */
  lemma SplitTwice(a: string, b: string, c: string, sep: char)
    requires sep !in a && sep !in b && sep !in c
    ensures Split(a + [sep] + b + [sep] + c, sep) == [a, b, c]
  {
    assert a + [sep] + b + [sep] + c == a + [sep] + (b + [sep] + c);
    SplitFirst(a, b + [sep] + c, sep);
    SplitOnce(b, c, sep);
  }

  /** A string that splits into two pieces is those pieces around its one separator. */
  lemma SplitTwoParts(s: string, sep: char)
    requires |Split(s, sep)| == 2
    ensures s == Split(s, sep)[0] + [sep] + Split(s, sep)[1]
    ensures sep !in Split(s, sep)[0] && sep !in Split(s, sep)[1]
  {
    var i := SplitTwoAt(s, sep);
    SplitTwoJoin(s, sep, i);
    NoSepBefore(s, sep, i);
  }

  /** Where a string that splits in two is cut. */
  lemma SplitTwoAt(s: string, sep: char) returns (i: nat)
    requires |Split(s, sep)| == 2
    ensures IndexOf(s, [sep], 0) == Some(i) && i < |s|
    ensures Split(s, sep) == [s[..i], s[i + 1..]] && sep !in s[i + 1..]
  {
    i := IndexOf(s, [sep], 0).value;
    OccursAtChar(s, sep, i);
    var rest := s[i + 1..];
    assert Split(s, sep) == [s[..i]] + Split(rest, sep);
    ContainsChar(rest, sep);
  }

  lemma SplitTwoJoin(s: string, sep: char, i: nat)
    requires IndexOf(s, [sep], 0) == Some(i) && i < |s|
    ensures s == s[..i] + [sep] + s[i + 1..]
  {
    OccursAtChar(s, sep, i);
    AroundIndex(s, i);
  }

  lemma AroundIndex(s: string, i: nat)
    requires i < |s|
    ensures s == s[..i] + [s[i]] + s[i + 1..]
  {
    assert s[..i] + [s[i]] == s[..i + 1];
    assert s[..i + 1] + s[i + 1..] == s;
  }

  lemma NoSepBefore(s: string, sep: char, i: nat)
    requires IndexOf(s, [sep], 0) == Some(i) && i < |s|
    ensures sep !in s[..i]
  {
    forall k | 0 <= k < i ensures s[k] != sep {
      OccursAtChar(s, sep, k);
    }
  }

  /** A string with two separators or more splits into three pieces or more. */
  lemma SplitMany(s: string, sep: char, i: nat, j: nat)
    requires i < j < |s| && s[i] == sep && s[j] == sep
    ensures |Split(s, sep)| >= 3
    decreases |s|
  {
    var k := IndexOf(s, [sep], 0);
    OccursAtChar(s, sep, i);
    OccursAtChar(s, sep, j);
    var first := k.value;
    OccursAtChar(s, sep, first);
    var rest := s[first + 1..];
    assert rest[j - first - 1] == sep;
    if first < i {
      assert rest[i - first - 1] == sep;
      SplitMany(rest, sep, i - first - 1, j - first - 1);
    } else {
      var m := IndexOf(rest, [sep], 0);
      OccursAtChar(rest, sep, j - first - 1);
      OccursAtChar(rest, sep, m.value);
      assert rest[m.value + 1..] == s[first + 1 + m.value + 1..];
    }
  }

  // ---------------------------------------------------------------------------
  // `int()` and integer formatting
  // ---------------------------------------------------------------------------

  predicate IsDigit(c: char) { '0' <= c <= '9' }

  predicate AllDigits(s: string) { forall i :: 0 <= i < |s| ==> IsDigit(s[i]) }

  function DigitValue(c: char): nat
    requires IsDigit(c)
  {
    c as int - '0' as int
  }

  function DigitChar(d: nat): char
    requires d < 10
  {
    (d + '0' as int) as char
  }

  /** The value of a decimal numeral. */
  function DigitsValue(s: string): nat
    requires AllDigits(s)
    decreases |s|
  {
    if s == [] then 0 else DigitsValue(s[..|s| - 1]) * 10 + DigitValue(s[|s| - 1])
  }

  /** The characters `int()` accepts between its optional sign and white space:
      digits, with single underscores only between two digits. */
  predicate IsDigitGroups(s: string) {
    && |s| > 0 && IsDigit(s[0]) && IsDigit(s[|s| - 1])
    && (forall i :: 0 <= i < |s| ==> IsDigit(s[i]) || s[i] == '_')
    && (forall i :: 0 <= i < |s| - 1 ==> !(s[i] == '_' && s[i + 1] == '_'))
  }

  /** The digits of `s` with its underscores dropped. */
  function DropUnderscores(s: string): (r: string)
    ensures (forall i :: 0 <= i < |s| ==> IsDigit(s[i]) || s[i] == '_') ==> AllDigits(r)
    ensures AllDigits(s) ==> r == s
  {
    if s == [] then []
    else (if s[0] == '_' then [] else [s[0]]) + DropUnderscores(s[1..])
  }

  /** The value of the digits of an `int()` literal body. */
  function GroupsValue(g: string): nat
    requires IsDigitGroups(g)
  {
    DigitsValue(DropUnderscores(g))
  }

  /** Python's `int(s)` for a decimal string; `None` where it raises `ValueError`. */
  function ParseInt(s: string): Option<int> {
    var t := Strip(s);
    if |t| > 0 && t[0] == '-' then
      if IsDigitGroups(t[1..]) then Some(0 - GroupsValue(t[1..])) else None
    else if |t| > 0 && t[0] == '+' then
      if IsDigitGroups(t[1..]) then Some(GroupsValue(t[1..])) else None
    else if IsDigitGroups(t) then Some(GroupsValue(t))
    else None
  }

  /** The characters an `int()` literal may hold. */
  predicate NumeralChar(c: char) { IsDigit(c) || IsSpace(c) || c == '+' || c == '-' || c == '_' }

  /** `int()` accepts only digits, white space, signs and underscores. */
  lemma ParseIntChars(s: string)
    ensures ParseInt(s).Some? ==> forall i :: 0 <= i < |s| ==> NumeralChar(s[i])
  {
    var t := Strip(s);
    if ParseInt(s).Some? {
      assert (|t| > 0 && (t[0] == '-' || t[0] == '+') && IsDigitGroups(t[1..])) || IsDigitGroups(t);
      NumeralBody(t);
      StripChars(s);
    }
  }

  /** An optional sign followed by digit groups holds only numeral characters. */
  lemma NumeralBody(t: string)
    requires (|t| > 0 && (t[0] == '-' || t[0] == '+') && IsDigitGroups(t[1..])) || IsDigitGroups(t)
    ensures forall c :: c in t ==> NumeralChar(c)
  {
    forall i | 0 <= i < |t| ensures NumeralChar(t[i]) {
      if i > 0 { assert t[i] == t[1..][i - 1]; }
    }
  }

  /** `str(n)` for a natural number. */
  function NatToString(n: nat): (r: string)
    ensures |r| > 0 && AllDigits(r) && DigitsValue(r) == n
    decreases n
  {
    if n < 10 then [DigitChar(n)]
    else
      var r := NatToString(n / 10) + [DigitChar(n % 10)];
      assert r[..|r| - 1] == NatToString(n / 10);
      r
  }

  /** `str(n)` (and `f"{n}"`) for an integer. */
  function IntToString(n: int): string {
    if n < 0 then "-" + NatToString(-n) else NatToString(n)
  }

  /** `str(n)` holds only digits and a minus sign. */
  lemma IntToStringChars(n: int)
    ensures forall i :: 0 <= i < |IntToString(n)| ==> IsDigit(IntToString(n)[i]) || IntToString(n)[i] == '-'
    ensures n >= 0 ==> AllDigits(IntToString(n))
  {
    if n < 0 {
      var d := NatToString(-n);
      forall i | 1 <= i < |IntToString(n)| ensures IsDigit(IntToString(n)[i]) {
        assert IntToString(n)[i] == d[i - 1];
      }
    }
  }

  /** `int()` reads back every non-empty numeral, leading zeros included. */
  lemma {:induction false} ParseIntDigits(ds: string)
    requires |ds| > 0 && AllDigits(ds)
    ensures ParseInt(ds) == Some(DigitsValue(ds))
  {
    DigitsAreGroups(ds);
    StripNoop(ds);
  }

  /** A non-empty numeral is an unsigned `int()` body worth its digits. */
  lemma DigitsAreGroups(ds: string)
    requires |ds| > 0 && AllDigits(ds)
    ensures IsDigitGroups(ds) && GroupsValue(ds) == DigitsValue(ds)
    ensures ds[0] != '-' && ds[0] != '+' && !IsSpace(ds[0]) && !IsSpace(ds[|ds| - 1])
  {
  }

  /** `int()` reads back a minus sign followed by a non-empty numeral. */
  lemma {:induction false} ParseIntNegative(s: string)
    requires |s| > 1 && s[0] == '-' && AllDigits(s[1..])
    ensures ParseInt(s) == Some(0 - DigitsValue(s[1..]))
  {
    var body := s[1..];
    assert IsDigit(body[|body| - 1]);
    assert !IsSpace(s[0]) && !IsSpace(s[|s| - 1]);
    StripNoop(s);
    assert Strip(s) == s;
    assert IsDigitGroups(body);
    assert GroupsValue(body) == DigitsValue(body);
  }

  /** `int(str(n)) == n`. */
  lemma {:induction false} ParseIntOfString(n: int)
    ensures ParseInt(IntToString(n)) == Some(n)
  {
    if n < 0 {
      assert IntToString(n)[1..] == NatToString(-n);
      ParseIntNegative(IntToString(n));
    } else {
      ParseIntDigits(NatToString(n));
    }
  }

  /** A string with a letter in it is not an integer. */
  lemma ParseIntRejectsLetter(s: string, k: nat)
    requires k < |s| && IsAsciiLetter(s[k])
    ensures ParseInt(s).None?
  {
    assert !NumeralChar(s[k]);
    NonNumeralRejected(s, k);
  }

  /** A string with a character `int()` never accepts is not an integer. */
  lemma NonNumeralRejected(s: string, k: nat)
    requires k < |s| && !NumeralChar(s[k])
    ensures ParseInt(s).None?
  {
    ParseIntChars(s);
  }

  /** `s.zfill(width)`: zeros inserted after an optional sign until `s` is `width` long. */
  function ZeroFill(s: string, width: nat): (r: string)
    ensures |r| == if |s| >= width then |s| else width
  {
    if |s| >= width then s
    else if |s| > 0 && (s[0] == '+' || s[0] == '-') then [s[0]] + Zeros(width - |s|) + s[1..]
    else Zeros(width - |s|) + s
  }

  function Zeros(n: nat): (r: string)
    ensures |r| == n && forall i :: 0 <= i < n ==> r[i] == '0'
  {
    if n == 0 then [] else "0" + Zeros(n - 1)
  }

  /** `f"{n:02d}"`, `f"{n:04d}"`: the integer zero-padded to `width`, sign first. */
  function PadInt(n: int, width: nat): string {
    ZeroFill(IntToString(n), width)
  }

  function Pow10(k: nat): nat {
    if k == 0 then 1 else 10 * Pow10(k - 1)
  }

  /** A number below `10^w` has at most `w` digits. */
  lemma {:induction false} NatToStringLength(n: nat, w: nat)
    requires 0 < w && n < Pow10(w)
    ensures |NatToString(n)| <= w
    decreases w
  {
    if n >= 10 {
      assert w > 1;
      NatToStringLength(n / 10, w - 1);
    }
  }

  lemma {:induction false} LeadingZero(x: string)
    requires AllDigits(x)
    ensures AllDigits("0" + x) && DigitsValue("0" + x) == DigitsValue(x)
    decreases |x|
  {
    if x != [] {
      assert ("0" + x)[..|x|] == "0" + x[..|x| - 1];
      LeadingZero(x[..|x| - 1]);
    }
  }

  /** Leading zeros do not change the value of a numeral. */
  lemma {:induction false} LeadingZeros(k: nat, x: string)
    requires AllDigits(x)
    ensures AllDigits(Zeros(k) + x) && DigitsValue(Zeros(k) + x) == DigitsValue(x)
    decreases k
  {
    if k > 0 {
      assert Zeros(k) + x == "0" + (Zeros(k - 1) + x);
      LeadingZeros(k - 1, x);
      LeadingZero(Zeros(k - 1) + x);
    } else {
      assert Zeros(k) + x == x;
    }
  }

  /** `f"{n:0wd}"` of a number below `10^w` is a numeral of exactly `w` digits that
      reads back as `n`. */
  lemma PadNat(n: nat, w: nat)
    requires 0 < w && n < Pow10(w)
    ensures |PadInt(n, w)| == w && AllDigits(PadInt(n, w)) && DigitsValue(PadInt(n, w)) == n
  {
    var s := NatToString(n);
    NatToStringLength(n, w);
    assert IntToString(n) == s;
    if |s| < w {
      assert IsDigit(s[0]);
      assert PadInt(n, w) == Zeros(w - |s|) + s;
      LeadingZeros(w - |s|, s);
    }
  }

  /** Zero padding adds only zeros. */
  lemma PadIntChars(n: int, width: nat)
    ensures forall i :: 0 <= i < |PadInt(n, width)| ==> IsDigit(PadInt(n, width)[i]) || PadInt(n, width)[i] == '-'
  {
    var s := IntToString(n);
    IntToStringChars(n);
    var r := PadInt(n, width);
    if |s| < width {
      var z := Zeros(width - |s|);
      if s[0] == '-' {
        assert r == [s[0]] + z + s[1..];
        forall i | 0 <= i < |r| ensures IsDigit(r[i]) || r[i] == '-' {
          if i == 0 {
          } else if i < 1 + |z| {
            assert r[i] == z[i - 1];
          } else {
            assert r[i] == s[i - |z|];
          }
        }
      } else {
        assert r == z + s;
        forall i | 0 <= i < |r| ensures IsDigit(r[i]) || r[i] == '-' {
          if i < |z| {
            assert r[i] == z[i];
          } else {
            assert r[i] == s[i - |z|];
          }
        }
      }
    }
  }
}
