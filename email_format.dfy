/** The email pattern `/^[^\s@]+@[^\s@]+\.[^\s@]+$/` that registration and the
    contact form both test, and an exact characterisation of what it accepts. */
module EmailFormat {
  import opened JsText

  /** A character of the class `[^\s@]`. */
  predicate Plain(c: char) {
    !IsSpace(c) && c != '@'
  }

  /** A run of `[^\s@]` characters (possibly empty; the pattern's `+` asks for non-empty runs separately). */
  predicate AllPlain(s: string) {
    forall k :: 0 <= k < |s| ==> Plain(s[k])
  }

  /** `emailRegex.test(s)`: s is a non-empty plain run, an `@`, a non-empty
      plain run, a literal `.`, and a non-empty plain run, with nothing before
      or after (the pattern is anchored and has no multiline flag). The
      positions `at` and `dot` are those of the `@` and of the escaped dot. */
  predicate MatchesEmailPattern(s: string)
    ensures MatchesEmailPattern(s) ==> 5 <= |s| && '@' in s && s[0] != '@'
  {
    exists at, dot | 0 < at < |s| && at + 1 < dot < |s| - 1 ::
      && s[at] == '@' && s[dot] == '.'
      && AllPlain(s[..at]) && AllPlain(s[at + 1..dot]) && AllPlain(s[dot + 1..])
  }

  /** The shape the pattern accepts, stated without the pattern: no white space
      anywhere, exactly one `@`, a non-empty local part before it, and a `.`
      in the domain that is neither the domain's first nor its last character. */
  ghost predicate EmailShape(s: string) {
    && (forall k :: 0 <= k < |s| ==> !IsSpace(s[k]))
    && (exists at :: 0 <= at < |s| && s[at] == '@'
         && (forall k :: 0 <= k < |s| && k != at ==> s[k] != '@')
         && at > 0
         && (exists d :: at + 1 < d < |s| - 1 && s[d] == '.'))
  }

  /** A slice is a plain run exactly when each character in its range is plain. */
  lemma AllPlainSlice(s: string, i: nat, j: nat)
    requires i <= j <= |s|
    ensures AllPlain(s[i..j]) <==> forall k :: i <= k < j ==> Plain(s[k])
  {
    if AllPlain(s[i..j]) {
      forall k | i <= k < j ensures Plain(s[k]) { assert s[i..j][k - i] == s[k]; }
    }
    if forall k :: i <= k < j ==> Plain(s[k]) {
      forall k | 0 <= k < j - i ensures Plain(s[i..j][k]) { assert s[i..j][k] == s[i + k]; }
    }
  }

  lemma PatternImpliesShape(s: string)
    requires MatchesEmailPattern(s)
    ensures EmailShape(s)
  {
    var at, dot :| 0 < at < |s| && at + 1 < dot < |s| - 1
      && s[at] == '@' && s[dot] == '.'
      && AllPlain(s[..at]) && AllPlain(s[at + 1..dot]) && AllPlain(s[dot + 1..]);
    AllPlainSlice(s, 0, at);
    AllPlainSlice(s, at + 1, dot);
    AllPlainSlice(s, dot + 1, |s|);
    assert s[..at] == s[0..at] && s[dot + 1..] == s[dot + 1..|s|];
    assert forall k :: 0 <= k < |s| && k != at && k != dot ==> Plain(s[k]);
    assert s[dot] == '.';
  }

  lemma ShapeImpliesPattern(s: string)
    requires EmailShape(s)
    ensures MatchesEmailPattern(s)
  {
    var at :| 0 <= at < |s| && s[at] == '@'
      && (forall k :: 0 <= k < |s| && k != at ==> s[k] != '@')
      && at > 0
      && exists d :: at + 1 < d < |s| - 1 && s[d] == '.';
    var dot :| at + 1 < dot < |s| - 1 && s[dot] == '.';
    AllPlainSlice(s, 0, at);
    AllPlainSlice(s, at + 1, dot);
    AllPlainSlice(s, dot + 1, |s|);
    assert s[..at] == s[0..at] && s[dot + 1..] == s[dot + 1..|s|];
  }

  /** The pattern accepts exactly the strings of that shape. */
  lemma PatternIffShape(s: string)
    ensures MatchesEmailPattern(s) <==> EmailShape(s)
  {
    if MatchesEmailPattern(s) { PatternImpliesShape(s); }
    if EmailShape(s) { ShapeImpliesPattern(s); }
  }

  lemma AcceptsExampleAddress()
    ensures MatchesEmailPattern("a@a.com")
  {
    var s := "a@a.com";
    assert s[..1] == "a" && s[2..3] == "a" && s[4..] == "com";
    assert AllPlain("a") && AllPlain("com");
    assert 0 < 1 < |s| && 1 + 1 < 3 < |s| - 1 && s[1] == '@' && s[3] == '.'
      && AllPlain(s[..1]) && AllPlain(s[1 + 1..3]) && AllPlain(s[3 + 1..]);
  }

  /** A second `@` in the domain is rejected, although every other clause holds. */
  lemma RejectsTwoAts()
    ensures !MatchesEmailPattern("a@b@c.d")
  {
    var s := "a@b@c.d";
    PatternIffShape(s);
    forall at | 0 <= at < |s| && s[at] == '@'
      ensures exists k :: 0 <= k < |s| && k != at && s[k] == '@'
    {
      if at == 1 { assert s[3] == '@'; } else { assert s[1] == '@'; }
    }
  }
}
