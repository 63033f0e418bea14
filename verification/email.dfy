/**
 * The contact form's email check, the regular expression
 * `^[^\s@]+@[^\s@]+\.[^\s@]+$` (src/pages/api/contact.ts). It is a permissive
 * shape test, not the addr-spec grammar of section 3.4.1 of RFC 5322.
 */
module EmailSyntax {
  import opened Text

  /** JavaScript's `\s`: the ECMAScript WhiteSpace and LineTerminator characters. */
  predicate IsWhitespace(c: char)
  {
    || c == '\t' || c == '\n' || c == '\U{000B}' || c == '\U{000C}' || c == '\r' || c == ' '
    || c == '\U{00A0}' || c == '\U{1680}' || ('\U{2000}' <= c <= '\U{200A}')
    || c == '\U{2028}' || c == '\U{2029}' || c == '\U{202F}' || c == '\U{205F}'
    || c == '\U{3000}' || c == '\U{FEFF}'
  }

  /** A character of the class `[^\s@]`. */
  predicate IsRunChar(c: char)
  {
    !IsWhitespace(c) && c != '@'
  }

  /** The whole of `s` matches `[^\s@]+`. */
  predicate IsRun(s: string)
  {
    |s| > 0 && forall i :: 0 <= i < |s| ==> IsRunChar(s[i])
  }

  /** `s` matches the pattern with its `@` at `at` and its literal `.` at `dot`. */
  predicate MatchesAt(s: string, at: int, dot: int)
  {
    && 0 <= at < dot < |s|
    && s[at] == '@' && s[dot] == '.'
    && IsRun(s[..at]) && IsRun(s[at + 1..dot]) && IsRun(s[dot + 1..])
  }

  /** The regular expression's meaning: some split of `s` matches it. */
  ghost predicate MatchesEmailPattern(s: string)
  {
    exists at, dot :: MatchesAt(s, at, dot)
  }

  /**
   * The test the handler applies, read as a rule: no whitespace, exactly one
   * `@`, something before it, and after it a `.` with at least one character on
   * each side.
   */
  predicate IsValidEmail(s: string)
  {
    && (forall i :: 0 <= i < |s| ==> !IsWhitespace(s[i]))
    && Count(s, '@') == 1
    && var at := IndexOf(s, '@');
       var domain := s[at + 1..];
       at > 0 && |domain| >= 3 && '.' in domain[1..|domain| - 1]
  }

  /** A character occurring once sits at one index only. */
  lemma CountOnce(s: string, c: char, i: nat, j: nat)
    requires Count(s, c) == 1
    requires i < |s| && j < |s| && s[i] == c && s[j] == c
    ensures i == j
  {
    if i != j {
      var lo, hi := if i < j then i else j, if i < j then j else i;
      assert s == s[..hi] + s[hi..];
      assert s[..hi][lo] == c;
      assert s[hi..][0] == c;
      CountAppend(s[..hi], s[hi..], c);
    }
  }

  /** A string without `c` counts none. */
  lemma CountWithout(s: string, c: char)
    requires forall i :: 0 <= i < |s| ==> s[i] != c
    ensures Count(s, c) == 0
  {
    assert c !in s;
  }

  /** The rule and the regular expression accept the same strings. */
  lemma ValidEmailIffPattern(s: string)
    ensures IsValidEmail(s) <==> MatchesEmailPattern(s)
  {
    if IsValidEmail(s) {
      ValidEmailMatches(s);
    }
    if MatchesEmailPattern(s) {
      var at, dot :| MatchesAt(s, at, dot);
      MatchIsValid(s, at, dot);
    }
  }

  lemma ValidEmailMatches(s: string)
    requires IsValidEmail(s)
    ensures MatchesEmailPattern(s)
  {
    var at := IndexOf(s, '@');
    var domain := s[at + 1..];
    var inner := domain[1..|domain| - 1];
    var k :| 0 <= k < |inner| && inner[k] == '.';
    var dot := at + 2 + k;
    assert s[dot] == '.';
    forall i | 0 <= i < |s| && i != at
      ensures IsRunChar(s[i])
    {
      if s[i] == '@' {
        CountOnce(s, '@', i, at);
      }
    }
    assert IsRun(s[..at]);
    assert IsRun(s[at + 1..dot]);
    assert IsRun(s[dot + 1..]);
    assert MatchesAt(s, at, dot);
  }

  lemma MatchIsValid(s: string, at: int, dot: int)
    requires MatchesAt(s, at, dot)
    ensures IsValidEmail(s)
  {
    MatchCharacters(s, at, dot);
    MatchCountsOneAt(s, at, dot);
    var first := IndexOf(s, '@');
    CountOnce(s, '@', first, at);
    var domain := s[at + 1..];
    assert domain[1..|domain| - 1][dot - at - 2] == '.';
  }

  /** In a match, no character is whitespace and only the one at `at` is `@`. */
  lemma MatchCharacters(s: string, at: int, dot: int)
    requires MatchesAt(s, at, dot)
    ensures forall i :: 0 <= i < |s| ==> !IsWhitespace(s[i]) && (i != at ==> s[i] != '@')
  {
    forall i | 0 <= i < |s|
      ensures !IsWhitespace(s[i])
      ensures i != at ==> s[i] != '@'
    {
      if i < at {
        assert s[..at][i] == s[i];
      } else if at < i < dot {
        assert s[at + 1..dot][i - at - 1] == s[i];
      } else if dot < i {
        assert s[dot + 1..][i - dot - 1] == s[i];
      }
    }
  }

  /** A string whose only `@` is at `at` counts one `@`. */
  lemma MatchCountsOneAt(s: string, at: int, dot: int)
    requires 0 <= at < |s| && s[at] == '@'
    requires forall i :: 0 <= i < |s| && i != at ==> s[i] != '@'
    ensures Count(s, '@') == 1
  {
    assert s == s[..at] + [s[at]] + s[at + 1..];
    CountWithout(s[..at], '@');
    CountWithout(s[at + 1..], '@');
    CountAppend(s[..at], [s[at]], '@');
    CountAppend(s[..at] + [s[at]], s[at + 1..], '@');
  }

  lemma AcceptsPlainAddress()
    ensures IsValidEmail("ana@example.ro")
  {
    assert MatchesAt("ana@example.ro", 3, 11) by {
      assert "ana@example.ro"[..3] == "ana";
      assert "ana@example.ro"[4..11] == "example";
      assert "ana@example.ro"[12..] == "ro";
    }
    MatchIsValid("ana@example.ro", 3, 11);
  }

  lemma RejectsWithoutAt()
    ensures !IsValidEmail("bad")
  {
    CountWithout("bad", '@');
  }

  lemma RejectsTwoAts()
    ensures !IsValidEmail("a@b@c.ro")
  {
  }

  lemma RejectsEmptyLocalPart()
    ensures !IsValidEmail("@example.ro")
  {
    assert IndexOf("@example.ro", '@') == 0;
  }

  lemma RejectsDotRightAfterAt()
    ensures !IsValidEmail("ana@.ro")
  {
    assert IndexOf("ana@.ro", '@') == 3;
  }

  lemma RejectsSpace()
    ensures !IsValidEmail("ana maria@example.ro")
  {
    assert IsWhitespace("ana maria@example.ro"[3]);
  }
}
