/** The address pattern `[a-zA-Z0-9._%+-]+@[a-zA-Z0-9.-]+\.[a-zA-Z]{2,}`, used both as a
    whole-string check (`is_valid_email`, src/utils.py) and as a search for the first
    address inside a chat message (`process_message`, src/appointment_handler.py). */
module Email {
  import opened Wrappers
  import opened Text

  predicate IsLocalChar(c: char) { IsAsciiLetter(c) || IsDigit(c) || c in "._%+-" }

  predicate IsDomainChar(c: char) { IsAsciiLetter(c) || IsDigit(c) || c == '.' || c == '-' }

  /** `s[i..e]` splits at `at` and `dot` into a local part, `@`, a domain, `.` and a final
      label of at least two letters (positions are indices of `s`). */
  predicate SpanShape(s: string, i: int, e: int, at: int, dot: int) {
    && 0 <= i < at && at + 1 < dot && dot + 2 < e <= |s|
    && (forall j :: i <= j < at ==> IsLocalChar(s[j]))
    && s[at] == '@'
    && (forall j :: at < j < dot ==> IsDomainChar(s[j]))
    && s[dot] == '.'
    && (forall j :: dot < j < e ==> IsAsciiLetter(s[j]))
  }

  /** The whole of `s` matches the address pattern. */
  ghost predicate AddressShape(s: string) {
    exists at, dot :: SpanShape(s, 0, |s|, at, dot)
  }

  /** `s[i..e]` is an address. */
  ghost predicate HasMatch(s: string, i: int, e: int) {
    exists at, dot :: SpanShape(s, i, e, at, dot)
  }

  lemma SliceShape(s: string, i: nat, e: nat, at: int, dot: int)
    requires i <= e <= |s|
    ensures SpanShape(s[i..e], 0, e - i, at - i, dot - i) <==> SpanShape(s, i, e, at, dot)
  {
    var t := s[i..e];
    if SpanShape(t, 0, e - i, at - i, dot - i) {
      forall j | i <= j < at ensures IsLocalChar(s[j]) { assert s[j] == t[j - i]; }
      forall j | at < j < dot ensures IsDomainChar(s[j]) { assert s[j] == t[j - i]; }
      forall j | dot < j < e ensures IsAsciiLetter(s[j]) { assert s[j] == t[j - i]; }
    }
  }

  lemma SliceMatch(s: string, i: nat, e: nat)
    requires i <= e <= |s|
    ensures AddressShape(s[i..e]) <==> HasMatch(s, i, e)
  {
    if AddressShape(s[i..e]) {
      var at, dot :| SpanShape(s[i..e], 0, e - i, at, dot);
      SliceShape(s, i, e, at + i, dot + i);
    }
    if HasMatch(s, i, e) {
      var at, dot :| SpanShape(s, i, e, at, dot);
      SliceShape(s, i, e, at, dot);
    }
  }

  // ---------------------------------------------------------------------------
  // is_valid_email: the whole string
  // ---------------------------------------------------------------------------

  /** The last index of `c` in `s`. */
  function LastIndex(s: string, c: char): (r: Option<nat>)
    ensures r.Some? ==> r.value < |s| && s[r.value] == c
    ensures r.Some? ==> forall j :: r.value < j < |s| ==> s[j] != c
    ensures r.None? ==> forall j :: 0 <= j < |s| ==> s[j] != c
    decreases |s|
  {
    if s == [] then None
    else if s[|s| - 1] == c then Some(|s| - 1)
    else LastIndex(s[..|s| - 1], c)
  }

  /** An address splits only at its one `@` and at its last `.`. */
  lemma ShapeDetermined(s: string, at: int, dot: int)
    requires SpanShape(s, 0, |s|, at, dot)
    ensures IndexOf(s, "@", 0) == Some(at)
    ensures LastIndex(s[at + 1..], '.') == Some(dot - at - 1)
  {
    AtIsFirst(s, at, dot);
    DotIsLast(s, at, dot);
  }

  lemma AtIsFirst(s: string, at: int, dot: int)
    requires SpanShape(s, 0, |s|, at, dot)
    ensures IndexOf(s, "@", 0) == Some(at)
  {
    forall k | 0 <= k < at ensures !OccursAt(s, "@", k) {
      OccursAtChar(s, '@', k);
    }
    OccursAtChar(s, '@', at);
    IndexOfFirst(s, "@", 0, at);
  }

  lemma DotIsLast(s: string, at: int, dot: int)
    requires SpanShape(s, 0, |s|, at, dot)
    ensures LastIndex(s[at + 1..], '.') == Some(dot - at - 1)
  {
    var d := s[at + 1..];
    assert d[dot - at - 1] == '.';
    forall j | dot - at - 1 < j < |d| ensures d[j] != '.' {
      assert d[j] == s[j + at + 1];
    }
  }

  /** The pattern matched against the whole of `s` (`re.fullmatch`). */
  function MatchesAddress(s: string): (ok: bool)
    ensures ok <==> AddressShape(s)
  {
    assert AddressShape(s) ==> IndexOf(s, "@", 0).Some? by {
      if AddressShape(s) {
        var at, dot :| SpanShape(s, 0, |s|, at, dot);
        ShapeDetermined(s, at, dot);
      }
    }
    match IndexOf(s, "@", 0)
    case None => false
    case Some(at) =>
      assert AddressShape(s) ==> LastIndex(s[at + 1..], '.').Some? &&
                                 SpanShape(s, 0, |s|, at, at + 1 + LastIndex(s[at + 1..], '.').value) by {
        if AddressShape(s) {
          var at', dot :| SpanShape(s, 0, |s|, at', dot);
          ShapeDetermined(s, at', dot);
        }
      }
      match LastIndex(s[at + 1..], '.')
      case None => false
      case Some(k) => SpanShape(s, 0, |s|, at, at + 1 + k)
  }

  /** `is_valid_email`: `re.match` of the anchored pattern. Python's `$` also matches
      just before a final newline, so one trailing `"\n"` is accepted. */
  function IsValidEmail(email: string): (ok: bool)
    ensures ok <==> (|| AddressShape(email)
                     || (|email| > 0 && email[|email| - 1] == '\n' && AddressShape(email[..|email| - 1])))
  {
    || MatchesAddress(email)
    || (|email| > 0 && email[|email| - 1] == '\n' && MatchesAddress(email[..|email| - 1]))
  }

  /** A valid address has an `@` with a `.` after it, and its last label is two ASCII
      letters or more; a string without `@`, or without `.` after its `@`, is rejected. */
  lemma {:induction false} ValidEmailHasAtThenDot(email: string)
    requires IsValidEmail(email)
    ensures exists at, dot :: 0 < at < dot < |email| && email[at] == '@' && email[dot] == '.'
    ensures IsAsciiLetter(email[|email| - 1]) || email[|email| - 1] == '\n'
  {
    if AddressShape(email) {
      var at, dot :| SpanShape(email, 0, |email|, at, dot);
      assert email[at] == '@' && email[dot] == '.';
      assert IsAsciiLetter(email[|email| - 1]);
    } else {
      var s := email[..|email| - 1];
      var at, dot :| SpanShape(s, 0, |s|, at, dot);
      assert email[at] == '@' && email[dot] == '.';
    }
  }

  /** Examples: `a@b.co` passes; `a@b`, `a.b.com` and `""` fail. */
  lemma EmailExamples()
    ensures IsValidEmail("a@b.co")
    ensures !IsValidEmail("a@b") && !IsValidEmail("a.b.com") && !IsValidEmail("")
  {
    assert SpanShape("a@b.co", 0, 6, 1, 3);
    if IsValidEmail("a@b") { ValidEmailHasAtThenDot("a@b"); }
    if IsValidEmail("a.b.com") { ValidEmailHasAtThenDot("a.b.com"); }
  }

  // ---------------------------------------------------------------------------
  // re.search: the first address inside a message
  // ---------------------------------------------------------------------------

  /** The end of the run of local-part characters that starts at `i`. */
  function LocalRunEnd(s: string, i: nat): (k: nat)
    requires i <= |s|
    ensures i <= k <= |s| && (k < |s| ==> !IsLocalChar(s[k]))
    ensures forall j :: i <= j < k ==> IsLocalChar(s[j])
    decreases |s| - i
  {
    if i == |s| || !IsLocalChar(s[i]) then i else LocalRunEnd(s, i + 1)
  }

  /** The end of the run of domain characters that starts at `i`. */
  function DomainRunEnd(s: string, i: nat): (k: nat)
    requires i <= |s|
    ensures i <= k <= |s| && (k < |s| ==> !IsDomainChar(s[k]))
    ensures forall j :: i <= j < k ==> IsDomainChar(s[j])
    decreases |s| - i
  {
    if i == |s| || !IsDomainChar(s[i]) then i else DomainRunEnd(s, i + 1)
  }

  /** The end of the run of ASCII letters that starts at `i`. */
  function LetterRunEnd(s: string, i: nat): (k: nat)
    requires i <= |s|
    ensures i <= k <= |s| && (k < |s| ==> !IsAsciiLetter(s[k]))
    ensures forall j :: i <= j < k ==> IsAsciiLetter(s[j])
    decreases |s| - i
  {
    if i == |s| || !IsAsciiLetter(s[i]) then i else LetterRunEnd(s, i + 1)
  }

  /** A `.` that two ASCII letters follow: a place where the final label can start. */
  predicate TldDot(s: string, q: int) {
    0 <= q && q + 2 < |s| && s[q] == '.' && IsAsciiLetter(s[q + 1]) && IsAsciiLetter(s[q + 2])
  }

  /** The last such `.` in `[lo, hi)`: the greedy domain part gives back characters
      from the right until one is found. */
  function LastTldDot(s: string, lo: nat, hi: nat): (r: Option<nat>)
    requires lo <= hi <= |s|
    ensures r.Some? ==> lo <= r.value < hi && TldDot(s, r.value)
    ensures r.Some? ==> forall q :: r.value < q < hi ==> !TldDot(s, q)
    ensures r.None? ==> forall q :: lo <= q < hi ==> !TldDot(s, q)
    decreases hi - lo
  {
    if hi == lo then None
    else if TldDot(s, hi - 1) then Some(hi - 1)
    else LastTldDot(s, lo, hi - 1)
  }

  /** The end of the match that the regular-expression engine finds at `i`, if any. */
  function MatchFrom(s: string, i: nat): Option<nat>
    requires i <= |s|
  {
    var at := LocalRunEnd(s, i);
    if at == i || at == |s| || s[at] != '@' then None
    else
      var domEnd := DomainRunEnd(s, at + 1);
      if domEnd < at + 2 then None
      else
        match LastTldDot(s, at + 2, domEnd)
        case None => None
        case Some(q) => Some(LetterRunEnd(s, q + 1))
  }

  lemma LocalRunStops(s: string, i: nat, a: nat)
    requires i <= a < |s| && !IsLocalChar(s[a])
    requires forall j :: i <= j < a ==> IsLocalChar(s[j])
    ensures LocalRunEnd(s, i) == a
    decreases a - i
  {
    if i < a { LocalRunStops(s, i + 1, a); }
  }

  lemma DomainRunCovers(s: string, i: nat, e: nat)
    requires i <= e <= |s|
    requires forall j :: i <= j < e ==> IsDomainChar(s[j])
    ensures e <= DomainRunEnd(s, i)
    decreases e - i
  {
    if i < e { DomainRunCovers(s, i + 1, e); }
  }

  lemma LetterRunCovers(s: string, i: nat, e: nat)
    requires i <= e <= |s|
    requires forall j :: i <= j < e ==> IsAsciiLetter(s[j])
    ensures e <= LetterRunEnd(s, i)
    decreases e - i
  {
    if i < e { LetterRunCovers(s, i + 1, e); }
  }

  /** Every address that starts at `i` has its `@` at the end of the local run and its
      final `.` at a `TldDot` inside the domain run. */
  lemma ShapeFromRuns(s: string, i: nat, e: int, a: int, b: int)
    requires i <= |s| && SpanShape(s, i, e, a, b)
    ensures a == LocalRunEnd(s, i)
    ensures e <= DomainRunEnd(s, a + 1)
    ensures a + 2 <= b < DomainRunEnd(s, a + 1) && TldDot(s, b)
  {
    LocalRunStops(s, i, a);
    DomainRunCovers(s, a + 1, e);
  }

  /** Any address that starts at `i` is found by the engine, and ends no later. */
  lemma MatchFromLongest(s: string, i: nat, e: int, a: int, b: int)
    requires i <= |s| && SpanShape(s, i, e, a, b)
    ensures MatchFrom(s, i).Some? && e <= MatchFrom(s, i).value
  {
    ShapeFromRuns(s, i, e, a, b);
    var domEnd := DomainRunEnd(s, a + 1);
    LastTldDotReaches(s, a + 2, domEnd, b);
    var q := LastTldDot(s, a + 2, domEnd).value;
    LabelEndCovers(s, b, q, e);
    MatchFromAt(s, i, a, q);
  }

  /** The last `TldDot` in a range is at or after any `TldDot` in it. */
  lemma LastTldDotReaches(s: string, lo: nat, hi: nat, b: nat)
    requires lo <= b < hi <= |s| && TldDot(s, b)
    ensures LastTldDot(s, lo, hi).Some? && b <= LastTldDot(s, lo, hi).value
  {
  }

  /** A final label running from the `.` at `b` to `e` ends no later than the letter run
      after any `TldDot` at or after `b`. */
  lemma LabelEndCovers(s: string, b: nat, q: nat, e: int)
    requires b <= q && TldDot(s, q) && b < e <= |s|
    requires forall j :: b < j < e ==> IsAsciiLetter(s[j])
    ensures e <= LetterRunEnd(s, q + 1)
  {
    if b == q {
      LetterRunCovers(s, b + 1, e);
    } else {
      assert !IsAsciiLetter(s[q]);
    }
  }

  /** The engine's match once the `@` and the final `.` are known. */
  lemma MatchFromAt(s: string, i: nat, a: nat, q: nat)
    requires i <= |s| && a == LocalRunEnd(s, i) && i < a < |s| && s[a] == '@'
    requires a + 2 <= DomainRunEnd(s, a + 1)
    requires LastTldDot(s, a + 2, DomainRunEnd(s, a + 1)) == Some(q)
    ensures MatchFrom(s, i) == Some(LetterRunEnd(s, q + 1))
  {
  }

  /** The engine's match at `i` is an address, no longer address starts at `i`, and
      when it finds none, no address starts at `i`. */
  lemma {:induction false} MatchFromCorrect(s: string, i: nat)
    requires i <= |s|
    ensures MatchFrom(s, i).Some? ==> i < MatchFrom(s, i).value <= |s| && HasMatch(s, i, MatchFrom(s, i).value)
    ensures MatchFrom(s, i).Some? ==> forall e :: MatchFrom(s, i).value < e && HasMatch(s, i, e) ==> false
    ensures MatchFrom(s, i).None? ==> forall e :: !HasMatch(s, i, e)
  {
    forall e | HasMatch(s, i, e) ensures MatchFrom(s, i).Some? && e <= MatchFrom(s, i).value {
      var a, b :| SpanShape(s, i, e, a, b);
      MatchFromLongest(s, i, e, a, b);
    }
    if MatchFrom(s, i).Some? {
      var at := LocalRunEnd(s, i);
      var domEnd := DomainRunEnd(s, at + 1);
      var q := LastTldDot(s, at + 2, domEnd).value;
      var end := LetterRunEnd(s, q + 1);
      assert SpanShape(s, i, end, at, q);
    }
  }

  /** The leftmost start at or after `i` where the engine finds a match, with its end. */
  function SearchFrom(s: string, i: nat): (r: Option<(nat, nat)>)
    requires i <= |s|
    ensures r.Some? ==> i <= r.value.0 <= |s| && MatchFrom(s, r.value.0) == Some(r.value.1)
    ensures r.Some? ==> forall k :: i <= k < r.value.0 ==> MatchFrom(s, k).None?
    ensures r.None? ==> forall k :: i <= k <= |s| ==> MatchFrom(s, k).None?
    decreases |s| - i
  {
    match MatchFrom(s, i)
    case Some(e) => Some((i, e))
    case None => if i == |s| then None else SearchFrom(s, i + 1)
  }

  /** `re.search(pattern, text)`: the span of the first address in `text`. */
  function EmailSpan(text: string): Option<(nat, nat)> {
    SearchFrom(text, 0)
  }

  /** `re.search(pattern, text).group()`. */
  function SearchEmail(text: string): Option<string> {
    match EmailSpan(text)
    case None => None
    case Some((b, e)) => if b <= e <= |text| then Some(text[b..e]) else None
  }

  /** The search finds an address exactly when the message contains one; it is the
      leftmost address, and the longest of those that start there. */
  lemma {:induction false} EmailSpanCorrect(text: string)
    ensures EmailSpan(text).None? <==> forall b, e :: !HasMatch(text, b, e)
    ensures EmailSpan(text).Some? ==>
      var (b, e) := EmailSpan(text).value;
      && b < e <= |text| && HasMatch(text, b, e)
      && (forall b', e' :: HasMatch(text, b', e') ==> b <= b')
      && (forall e' :: HasMatch(text, b, e') ==> e' <= e)
  {
    forall b, e | HasMatch(text, b, e) ensures EmailSpan(text).Some? && EmailSpan(text).value.0 <= b {
      var at, dot :| SpanShape(text, b, e, at, dot);
      MatchFromCorrect(text, b);
    }
    if EmailSpan(text).Some? {
      var (b, e) := EmailSpan(text).value;
      MatchFromCorrect(text, b);
    }
  }

  /** The address the search finds passes `is_valid_email`. */
  lemma FoundEmailIsValid(text: string)
    requires SearchEmail(text).Some?
    ensures IsValidEmail(SearchEmail(text).value)
  {
    var (b, e) := EmailSpan(text).value;
    MatchFromCorrect(text, b);
    SliceMatch(text, b, e);
  }
}
