// The three regular-expression validators of the Python service. Each is
// given twice: as a direct check on the text, and as the language of its
// pattern written out by positions (what `re.match` with a leading `^`
// accepts, `$` matching at the end or before one final newline); a lemma
// shows the two agree on every text.
module PyValidators {
  import opened Common
  import opened Text
  import V = Validator

  /**
   * `\w` on the characters this model knows: `str.isalnum()` or `_`. Over the
   * modelled ranges the alphanumerics are the alphabetic and numeric
   * characters of the Rust validator.
   */
  predicate IsWordChar(c: char) { V.IsAlphabetic(c) || V.IsNumeric(c) || c == '_' }

  /** `\d`, the Unicode decimal digits: among the modelled characters, only the ASCII digits. */
  predicate IsDigitChar(c: char) { V.IsAsciiDigit(c) }

  predicate NoNewline(s: string) { '\n' !in s }

  /** Where `$` matches: at the end, or just before a final newline. */
  predicate AtEnd(s: string, k: nat) { k == |s| || (k + 1 == |s| && s[k] == '\n') }

  /** The text `$` lets the pattern see: without one final newline. */
  function Body(s: string): (t: string)
    ensures t == s || (s == t + "\n")
    ensures |s| > 0 && s[|s| - 1] == '\n' ==> s == t + "\n"
  {
    if |s| > 0 && s[|s| - 1] == '\n' then s[..|s| - 1] else s
  }

  // ---- username: ^(?=.{4,20}$)(?![_.])(?!.*[_.]{2})[a-zA-Z0-9._]+(?<![_.])$ ----

  predicate IsSep(c: char) { c == '_' || c == '.' }

  /** Two of `_` and `.` side by side at position `i`. */
  predicate DoubleSepAt(s: string, i: nat) { i + 1 < |s| && IsSep(s[i]) && IsSep(s[i + 1]) }

  /**
   * `is_valid_username`: apart from one final newline, 4 to 20 characters
   * from [a-zA-Z0-9._], not starting or ending with `_` or `.`, and no two
   * of those next to each other.
   */
  predicate IsValidUsername(s: string)
  {
    var t := Body(s);
    && 4 <= |t| <= 20
    && (forall i :: 0 <= i < |t| ==> V.IsUsernameChar(t[i]))
    && !IsSep(t[0]) && !IsSep(t[|t| - 1])
    && (forall i: nat :: i < |t| ==> !DoubleSepAt(t, i))
  }

  /** The username pattern's language, assertion by assertion. */
  ghost predicate UsernamePattern(s: string)
  {
    // (?=.{4,20}$)
    && (exists k: nat :: 4 <= k <= 20 && k <= |s| && AtEnd(s, k) && NoNewline(s[..k]))
    // (?![_.])
    && !(|s| > 0 && IsSep(s[0]))
    // (?!.*[_.]{2})
    && !(exists i: nat :: i < |s| && NoNewline(s[..i]) && DoubleSepAt(s, i))
    // [a-zA-Z0-9._]+(?<![_.])$
    && (exists j: nat :: 1 <= j <= |s| && (forall m :: 0 <= m < j ==> V.IsUsernameChar(s[m])) &&
                         !IsSep(s[j - 1]) && AtEnd(s, j))
  }

  lemma UsernameSound(s: string)
    requires IsValidUsername(s)
    ensures UsernamePattern(s)
  {
    var t := Body(s);
    var k := |t|;
    assert s[..k] == t;
    assert V.IsUsernameChar(t[|t| - 1]);
    assert AtEnd(s, k);
    assert NoNewline(s[..k]) by {
      forall m | 0 <= m < k ensures s[..k][m] != '\n' { assert V.IsUsernameChar(t[m]); }
    }
    assert s[0] == t[0];
    forall i: nat | i < |s| ensures !DoubleSepAt(s, i) || !NoNewline(s[..i]) {
      if i + 1 < |t| {
        assert !DoubleSepAt(t, i);
        assert t[i] == s[i] && t[i + 1] == s[i + 1];
      } else if i + 1 < |s| {
        assert s == t + "\n" && s[i + 1] == '\n';
      }
    }
    assert forall m :: 0 <= m < k ==> V.IsUsernameChar(s[m]) by {
      forall m | 0 <= m < k ensures V.IsUsernameChar(s[m]) { assert s[m] == t[m]; }
    }
  }

  /** Where `$` matches after a character that is not a newline, the pattern saw the text's body. */
  lemma BodyAt(s: string, j: nat)
    requires 1 <= j <= |s| && AtEnd(s, j) && s[j - 1] != '\n'
    ensures Body(s) == s[..j]
  {
  }

  /** Two places where `$` matches, each after a run without newlines, are the same place. */
  lemma AtEndUnique(s: string, j: nat, k: nat)
    requires 1 <= j <= |s| && 1 <= k <= |s| && AtEnd(s, j) && AtEnd(s, k)
    requires s[j - 1] != '\n' && s[k - 1] != '\n'
    ensures j == k
  {
  }

  lemma UsernameComplete(s: string)
    requires UsernamePattern(s)
    ensures IsValidUsername(s)
  {
    var j: nat :| 1 <= j <= |s| && (forall m :: 0 <= m < j ==> V.IsUsernameChar(s[m])) &&
                 !IsSep(s[j - 1]) && AtEnd(s, j);
    var k: nat :| 4 <= k <= 20 && k <= |s| && AtEnd(s, k) && NoNewline(s[..k]);
    assert V.IsUsernameChar(s[j - 1]);
    assert s[..k][k - 1] == s[k - 1];
    AtEndUnique(s, j, k);
    BodyAt(s, j);
    var t := s[..j];
    assert |t| == j;
    assert t[0] == s[0];
    assert t[j - 1] == s[j - 1];
    assert forall i :: 0 <= i < |t| ==> V.IsUsernameChar(t[i]) by {
      forall i | 0 <= i < |t| ensures V.IsUsernameChar(t[i]) { assert t[i] == s[i]; }
    }
    forall i: nat | i < |t| ensures !DoubleSepAt(t, i) {
      if i + 1 < |t| {
        assert NoNewline(s[..i]) by {
          forall m | 0 <= m < i ensures s[..i][m] != '\n' { assert V.IsUsernameChar(s[m]); }
        }
        assert t[i] == s[i] && t[i + 1] == s[i + 1];
      }
    }
    assert 4 <= |t| <= 20 && !IsSep(t[0]) && !IsSep(t[|t| - 1]);
    UsernameOfBody(s, t);
  }

  lemma UsernameOfBody(s: string, t: string)
    requires Body(s) == t && 4 <= |t| <= 20
    requires forall i :: 0 <= i < |t| ==> V.IsUsernameChar(t[i])
    requires !IsSep(t[0]) && !IsSep(t[|t| - 1])
    requires forall i: nat :: i < |t| ==> !DoubleSepAt(t, i)
    ensures IsValidUsername(s)
  {
  }

  /** The username check accepts exactly the pattern's language. */
  lemma UsernameAgrees(s: string)
    ensures IsValidUsername(s) <==> UsernamePattern(s)
  {
    if IsValidUsername(s) { UsernameSound(s); }
    if UsernamePattern(s) { UsernameComplete(s); }
  }

  // ---- password: ^[\w.#$%&_](?=.*\d)(?=.{8,26}$) ----

  predicate IsPasswordFirst(c: char) { IsWordChar(c) || c in ".#$%&" }

  /**
   * `is_valid_password`: a first character from [\w.#$%&], then, apart from
   * one final newline, 8 to 26 characters on one line, at least one of them
   * a digit.
   */
  predicate IsValidPassword(s: string)
  {
    && |s| >= 1 && IsPasswordFirst(s[0])
    && var r := Body(s[1..]);
       && NoNewline(r) && 8 <= |r| <= 26
       && exists i :: 0 <= i < |r| && IsDigitChar(r[i])
  }

  /** The password pattern's language, assertion by assertion. */
  ghost predicate PasswordPattern(s: string)
  {
    // ^[\w.#$%&_]
    && |s| >= 1 && IsPasswordFirst(s[0])
    // (?=.*\d)
    && (exists i: nat :: 1 <= i < |s| && NoNewline(s[1..i]) && IsDigitChar(s[i]))
    // (?=.{8,26}$), the lookahead ending at position j
    && (exists j: nat :: 9 <= j <= 27 && j <= |s| && AtEnd(s, j) && NoNewline(s[1..j]))
  }

  lemma PasswordSound(s: string)
    requires IsValidPassword(s)
    ensures PasswordPattern(s)
  {
    var r := Body(s[1..]);
    var i :| 0 <= i < |r| && IsDigitChar(r[i]);
    assert s[1..][i] == r[i];
    assert s[1..1 + i] == r[..i];
    assert NoNewline(s[1..1 + i]) by { assert forall m :: 0 <= m < i ==> r[..i][m] == r[m]; }
    assert 1 <= 1 + i < |s| && NoNewline(s[1..1 + i]) && IsDigitChar(s[1 + i]);
    var j := 1 + |r|;
    assert s[1..j] == r;
    assert AtEnd(s, j);
  }

  lemma PasswordComplete(s: string)
    requires PasswordPattern(s)
    ensures IsValidPassword(s)
  {
    var r := Body(s[1..]);
    var j: nat :| 9 <= j <= 27 && j <= |s| && AtEnd(s, j) && NoNewline(s[1..j]);
    var i: nat :| 1 <= i < |s| && NoNewline(s[1..i]) && IsDigitChar(s[i]);
    if j == |s| {
      assert s[1..] == s[1..j];
      assert s[1..][|s[1..]| - 1] == s[1..j][j - 2];
    } else {
      assert s[1..] == s[1..j] + "\n";
    }
    assert r == s[1..j];
    assert i - 1 < |r| && r[i - 1] == s[i];
  }

  /** The password check accepts exactly the pattern's language. */
  lemma PasswordAgrees(s: string)
    ensures IsValidPassword(s) <==> PasswordPattern(s)
  {
    if IsValidPassword(s) { PasswordSound(s); }
    if PasswordPattern(s) { PasswordComplete(s); }
  }

  // ---- email: ^[-\w\.]+@([-\w]+\.)+[-\w]{2,4}$ ----

  predicate IsLocalChar(c: char) { c == '-' || IsWordChar(c) || c == '.' }
  predicate IsLabelChar(c: char) { c == '-' || IsWordChar(c) }

  predicate IsLabel(l: string) { |l| >= 1 && forall i :: 0 <= i < |l| ==> IsLabelChar(l[i]) }

  /**
   * `is_valid_email`: a non-empty local part from [-\w.] up to the first
   * `@`; after it, apart from one final newline, two or more non-empty
   * labels from [-\w] separated by dots, the last of them 2 to 4 long.
   */
  predicate IsValidEmail(s: string)
  {
    match SplitOnce(s, '@')
    case None => false
    case Some((local, rest)) =>
      var labels := Split(Body(rest), '.');
      && |local| >= 1 && (forall i :: 0 <= i < |local| ==> IsLocalChar(local[i]))
      && |labels| >= 2 && (forall i :: 0 <= i < |labels| ==> IsLabel(labels[i]))
      && 2 <= |labels[|labels| - 1]| <= 4
  }

  /**
   * The email pattern's language: a local part, `@`, one or more labels each
   * followed by a dot, a final label of 2 to 4 characters, and what `$` allows.
   */
  ghost predicate EmailPattern(s: string)
  {
    exists local: string, groups: seq<string>, last: string, nl: string ::
      && s == local + "@" + Join(groups + [last], '.') + nl
      && (nl == "" || nl == "\n")
      && |local| >= 1 && (forall i :: 0 <= i < |local| ==> IsLocalChar(local[i]))
      && |groups| >= 1 && (forall i :: 0 <= i < |groups| ==> IsLabel(groups[i]))
      && IsLabel(last) && 2 <= |last| <= 4
  }

  /** A character in no piece and not the separator is not in the joined text. */
  lemma {:induction false} JoinAvoids(ps: seq<string>, sep: char, c: char)
    requires |ps| >= 1 && c != sep
    requires forall i :: 0 <= i < |ps| ==> c !in ps[i]
    ensures c !in Join(ps, sep)
  {
    if |ps| > 1 {
      JoinAvoids(ps[1..], sep, c);
    }
  }

  lemma EmailSound(s: string)
    requires IsValidEmail(s)
    ensures EmailPattern(s)
  {
    var (local, rest) := SplitOnce(s, '@').value;
    assert s == local + "@" + rest;
    EmailFromParts(s, local, rest);
  }

  lemma EmailFromParts(s: string, local: string, rest: string)
    requires s == local + "@" + rest
    requires |local| >= 1 && (forall i :: 0 <= i < |local| ==> IsLocalChar(local[i]))
    requires var labels := Split(Body(rest), '.');
             |labels| >= 2 && (forall i :: 0 <= i < |labels| ==> IsLabel(labels[i]))
             && 2 <= |labels[|labels| - 1]| <= 4
    ensures EmailPattern(s)
  {
    var body := Body(rest);
    var labels := Split(body, '.');
    JoinSplit(body, '.');
    var groups, last := labels[..|labels| - 1], labels[|labels| - 1];
    assert groups + [last] == labels;
    var nl := if body == rest then "" else "\n";
    assert rest == body + nl;
    assert forall i :: 0 <= i < |groups| ==> IsLabel(groups[i]) by {
      forall i | 0 <= i < |groups| ensures IsLabel(groups[i]) {
        assert groups[i] == labels[i];
      }
    }
    EmailWitness(s, local, groups, last, nl);
  }

  lemma EmailWitness(s: string, local: string, groups: seq<string>, last: string, nl: string)
    requires s == local + "@" + Join(groups + [last], '.') + nl
    requires nl == "" || nl == "\n"
    requires |local| >= 1 && (forall i :: 0 <= i < |local| ==> IsLocalChar(local[i]))
    requires |groups| >= 1 && (forall i :: 0 <= i < |groups| ==> IsLabel(groups[i]))
    requires IsLabel(last) && 2 <= |last| <= 4
    ensures EmailPattern(s)
  {
  }

  lemma LabelsClean(labels: seq<string>)
    requires forall i :: 0 <= i < |labels| ==> IsLabel(labels[i])
    ensures forall i :: 0 <= i < |labels| ==> '\n' !in labels[i] && '.' !in labels[i]
  {
    forall i | 0 <= i < |labels| ensures '\n' !in labels[i] && '.' !in labels[i] {
      assert IsLabel(labels[i]);
      forall m | 0 <= m < |labels[i]| ensures labels[i][m] != '\n' && labels[i][m] != '.' {
        assert IsLabelChar(labels[i][m]);
      }
    }
  }

  lemma BodyOfJoined(d: string, nl: string)
    requires '\n' !in d && |d| >= 1 && (nl == "" || nl == "\n")
    ensures Body(d + nl) == d
  {
    if nl == "" {
      assert d + nl == d;
      assert d[|d| - 1] in d;
    } else {
      assert (d + nl)[..|d + nl| - 1] == d;
    }
  }

  lemma EmailComplete(s: string)
    requires EmailPattern(s)
    ensures IsValidEmail(s)
  {
    var local: string, groups: seq<string>, last: string, nl: string :|
      && s == local + "@" + Join(groups + [last], '.') + nl
      && (nl == "" || nl == "\n")
      && |local| >= 1 && (forall i :: 0 <= i < |local| ==> IsLocalChar(local[i]))
      && |groups| >= 1 && (forall i :: 0 <= i < |groups| ==> IsLabel(groups[i]))
      && IsLabel(last) && 2 <= |last| <= 4;
    var labels := groups + [last];
    var d := Join(labels, '.');
    assert forall i :: 0 <= i < |labels| ==> IsLabel(labels[i]) by {
      forall i | 0 <= i < |labels| ensures IsLabel(labels[i]) {
        if i < |groups| { assert labels[i] == groups[i]; } else { assert labels[i] == last; }
      }
    }
    assert '@' !in local by {
      forall i | 0 <= i < |local| ensures local[i] != '@' { assert IsLocalChar(local[i]); }
    }
    SplitOnceGlue(local, '@', d + nl);
    assert s == local + ['@'] + (d + nl);
    LabelsClean(labels);
    JoinAvoids(labels, '.', '\n');
    assert d == labels[0] + ['.'] + Join(labels[1..], '.');
    BodyOfJoined(d, nl);
    SplitJoin(labels, '.');
  }

  /** The email check accepts exactly the pattern's language. */
  lemma EmailAgrees(s: string)
    ensures IsValidEmail(s) <==> EmailPattern(s)
  {
    if IsValidEmail(s) { EmailSound(s); }
    if EmailPattern(s) { EmailComplete(s); }
  }
}
