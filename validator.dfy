// The Rust `ValidatorService`: length limits counted in UTF-8 bytes,
// character classes, the order in which the checks run, and the
// addr-spec grammar of section 3.4.1 of RFC 2822 for email addresses.
module Validator {
  import opened Common
  import opened Text

  /** The result of one validation: accepted, or the first complaint. */
  datatype Check = Pass | Fail(msg: string)

  const FirstNameLength := 64
  const LastNameLength := 64
  const UsernameLength := 32
  const PasswordLength := 32
  const EmailLength := 255

  const UsernameLengthMsg := "Имя пользователя должно содержать от 4 до 32 символов"
  const UsernameCharsMsg := "Имя пользователя может содержать только буквы, цифры, точки и символы подчеркивания"
  const EmailLengthMsg := "Email должен содержать максимум 255 символов"
  const EmailFormatMsg := "Неверный формат email"
  const PasswordLengthMsg := "Пароль должен содержать от 8 до 32 символов"
  const PasswordDigitMsg := "Пароль должен содержать хотя бы одну цифру"
  const PasswordLetterMsg := "Пароль должен содержать хотя бы одну букву"
  const PasswordSpaceMsg := "Пароль не должен содержать пробелов"
  const LastNameLengthMsg := "Фамилия должна состоять максимум из 64 символов"
  const LastNameCharsMsg := "Фамилия должна состоять из латинских или кириллических букв"
  const FirstNameLengthMsg := "Имя должно состоять максимум из 64 символов"
  const FirstNameCharsMsg := "Имя должно состоять из латинских или кириллических букв"

  // ---- character classes ------------------------------------------------------

  predicate IsAsciiLetter(c: char) { 'a' <= c <= 'z' || 'A' <= c <= 'Z' }
  predicate IsAsciiDigit(c: char) { '0' <= c <= '9' }

  /** `а-я` and `А-Я`: U+0430..U+044F and U+0410..U+042F, which leaves out ё (U+0451) and Ё (U+0401). */
  predicate IsBasicCyrillic(c: char) { 'А' <= c <= 'я' }

  /** The class `[a-zA-Zа-яА-Я]` of the name patterns. */
  predicate IsNameChar(c: char) { IsAsciiLetter(c) || IsBasicCyrillic(c) }

  /** The class `[a-zA-Z0-9._]` of the username pattern. */
  predicate IsUsernameChar(c: char) { IsAsciiLetter(c) || IsAsciiDigit(c) || c == '.' || c == '_' }

  /** `char::is_numeric`, on the ASCII range and Latin-1 (the digits and the superscripts and fractions). */
  predicate IsNumeric(c: char)
  {
    var n := c as int;
    IsAsciiDigit(c) || n == 0xb2 || n == 0xb3 || n == 0xb9 || (0xbc <= n <= 0xbe)
  }

  /** `char::is_alphabetic`, on the ASCII range, Latin-1 and the Cyrillic block. */
  predicate IsAlphabetic(c: char)
  {
    var n := c as int;
    IsAsciiLetter(c) || n == 0xaa || n == 0xb5 || n == 0xba
    || (0xc0 <= n <= 0xff && n != 0xd7 && n != 0xf7)
    || (0x400 <= n <= 0x481) || (0x48a <= n <= 0x4ff)
  }

  /** `char::is_whitespace`: the Unicode White_Space property, which is a fixed list. */
  predicate IsWhitespace(c: char)
  {
    var n := c as int;
    (0x09 <= n <= 0x0d) || n == 0x20 || n == 0x85 || n == 0xa0 || n == 0x1680
    || (0x2000 <= n <= 0x200a) || n == 0x2028 || n == 0x2029 || n == 0x202f
    || n == 0x205f || n == 0x3000
  }

  predicate All(s: string, p: char -> bool) { forall i :: 0 <= i < |s| ==> p(s[i]) }
  predicate Any(s: string, p: char -> bool) { exists i :: 0 <= i < |s| && p(s[i]) }

  // ---- the validators ------------------------------------------------------------

  function ValidateUsername(username: string): (r: Check)
    ensures r == Pass <==> (4 <= Utf8Len(username) <= UsernameLength && All(username, IsUsernameChar))
    ensures !(4 <= Utf8Len(username) <= UsernameLength) ==> r == Fail(UsernameLengthMsg)
    ensures 4 <= Utf8Len(username) <= UsernameLength && !All(username, IsUsernameChar) ==> r == Fail(UsernameCharsMsg)
  {
    if Utf8Len(username) < 4 || Utf8Len(username) > UsernameLength then Fail(UsernameLengthMsg)
    else if !All(username, IsUsernameChar) then Fail(UsernameCharsMsg)
    else Pass
  }

  function ValidateEmail(email: string): (r: Check)
    ensures r == Pass <==> (Utf8Len(email) <= EmailLength && AddrSpec(email))
    ensures Utf8Len(email) > EmailLength ==> r == Fail(EmailLengthMsg)
    ensures Utf8Len(email) <= EmailLength && !AddrSpec(email) ==> r == Fail(EmailFormatMsg)
  {
    if Utf8Len(email) > EmailLength then Fail(EmailLengthMsg)
    else if !AddrSpec(email) then Fail(EmailFormatMsg)
    else Pass
  }

  function ValidatePassword(password: string): (r: Check)
    ensures r == Pass <==> (8 <= Utf8Len(password) <= PasswordLength && Any(password, IsNumeric)
                            && Any(password, IsAlphabetic) && !Any(password, IsWhitespace))
    ensures !(8 <= Utf8Len(password) <= PasswordLength) ==> r == Fail(PasswordLengthMsg)
    ensures 8 <= Utf8Len(password) <= PasswordLength && !Any(password, IsNumeric) ==> r == Fail(PasswordDigitMsg)
    ensures (8 <= Utf8Len(password) <= PasswordLength && Any(password, IsNumeric) && !Any(password, IsAlphabetic))
      ==> r == Fail(PasswordLetterMsg)
    ensures (8 <= Utf8Len(password) <= PasswordLength && Any(password, IsNumeric) && Any(password, IsAlphabetic) &&
             Any(password, IsWhitespace))
      ==> r == Fail(PasswordSpaceMsg)
  {
    if Utf8Len(password) < 8 || Utf8Len(password) > PasswordLength then Fail(PasswordLengthMsg)
    else if !Any(password, IsNumeric) then Fail(PasswordDigitMsg)
    else if !Any(password, IsAlphabetic) then Fail(PasswordLetterMsg)
    else if Any(password, IsWhitespace) then Fail(PasswordSpaceMsg)
    else Pass
  }

  function ValidateLastName(lastName: string): (r: Check)
    ensures r == Pass <==> (Utf8Len(lastName) <= LastNameLength && All(lastName, IsNameChar))
    ensures Utf8Len(lastName) > LastNameLength ==> r == Fail(LastNameLengthMsg)
    ensures Utf8Len(lastName) <= LastNameLength && !All(lastName, IsNameChar) ==> r == Fail(LastNameCharsMsg)
  {
    if Utf8Len(lastName) > LastNameLength then Fail(LastNameLengthMsg)
    else if !All(lastName, IsNameChar) then Fail(LastNameCharsMsg)
    else Pass
  }

  function ValidateFirstName(firstName: string): (r: Check)
    ensures r == Pass <==> (Utf8Len(firstName) <= FirstNameLength && All(firstName, IsNameChar))
    ensures Utf8Len(firstName) > FirstNameLength ==> r == Fail(FirstNameLengthMsg)
    ensures Utf8Len(firstName) <= FirstNameLength && !All(firstName, IsNameChar) ==> r == Fail(FirstNameCharsMsg)
  {
    if Utf8Len(firstName) > FirstNameLength then Fail(FirstNameLengthMsg)
    else if !All(firstName, IsNameChar) then Fail(FirstNameCharsMsg)
    else Pass
  }

  // ---- collecting errors by field ---------------------------------------------------

  /** The check of an optional field: an absent value is not checked. */
  function CheckOptional(value: Option<string>, check: string -> Check): Check
  {
    if value.None? then Pass else check(value.value)
  }

  /** Records a failed check under its field, replacing what was there. */
  function Note(errs: map<string, string>, field: string, c: Check): map<string, string>
  {
    if c.Fail? then errs[field := c.msg] else errs
  }

  /** `check.unwrap_or_else(|e| { errs.insert(field, e.to_string()); })`. */
  method InsertOnFail(errs: map<string, string>, field: string, c: Check) returns (r: map<string, string>)
    ensures r == Note(errs, field, c)
  {
    r := errs;
    if c.Fail? {
      r := r[field := c.msg];
    }
  }

  // ---- what the limits mean in characters -------------------------------------------

  lemma AsciiTextLen(s: string)
    requires forall i :: 0 <= i < |s| ==> (s[i] as int) < 0x80
    ensures Utf8Len(s) == |s|
  {
    Utf8LenUniform(s, 1);
  }

  /** An accepted username is plain ASCII, so its limits are 4 to 32 characters. */
  lemma UsernameCharacters(username: string)
    ensures ValidateUsername(username) == Pass <==> (4 <= |username| <= 32 && All(username, IsUsernameChar))
  {
    if All(username, IsUsernameChar) {
      AsciiTextLen(username);
    }
  }

  /** A name of basic Cyrillic letters takes two bytes a letter, so the 64-byte limit admits exactly 32 of them. */
  lemma CyrillicNameLimit(name: string)
    requires name != [] && All(name, IsBasicCyrillic)
    ensures ValidateFirstName(name) == Pass <==> |name| <= 32
    ensures ValidateLastName(name) == Pass <==> |name| <= 32
  {
    Utf8LenUniform(name, 2);
  }

  /** The empty name is accepted; ё and Ё fall outside the Cyrillic range and are refused. */
  lemma NameEdgeCases()
    ensures ValidateFirstName("") == Pass && ValidateLastName("") == Pass
    ensures ValidateFirstName("ё") == Fail(FirstNameCharsMsg)
    ensures ValidateLastName("Ёлкин") == Fail(LastNameCharsMsg)
  {
    assert !IsNameChar("ё"[0]);
    assert !IsNameChar("Ёлкин"[0]);
  }

  /** An accepted password has at most 32 characters, whatever their widths. */
  lemma PasswordCharacters(password: string)
    requires ValidatePassword(password) == Pass
    ensures 2 <= |password| <= 32
  {
    Utf8LenBounds(password);
  }

  // ---- section 3.4.1 of RFC 2822: addr-spec -------------------------------------------
  //
  // local-part = word *("." word), word = atom / quoted-string;
  // domain = sub-domain *("." sub-domain), sub-domain = atom / domain-literal.
  // The pattern is anchored at both ends. Every alternative is decided by its
  // first character and an atom is always followed by a character that cannot
  // continue it, so a left-to-right scan that takes each atom as long as it
  // goes decides the pattern.

  /** A character allowed in an atom: not a control, space, specials, or U+007F..U+00FF. */
  predicate AtomChar(c: char)
  {
    var n := c as int;
    n > 0xff || (0x20 < n < 0x7f && n != 0x22 && n != 0x28 && n != 0x29 && n != 0x2c && n != 0x2e
                 && !(0x3a <= n <= 0x3c) && n != 0x3e && n != 0x40 && !(0x5b <= n <= 0x5d))
  }

  /** The scan stops exactly at the first character that cannot be part of an atom. */
  lemma {:induction false} AtomEndRun(s: string, i: nat)
    requires i <= |s|
    ensures forall k :: i <= k < AtomEnd(s, i) ==> AtomChar(s[k])
    ensures AtomEnd(s, i) < |s| ==> !AtomChar(s[AtomEnd(s, i)])
    decreases |s| - i
  {
    if i < |s| && AtomChar(s[i]) {
      AtomEndRun(s, i + 1);
    }
  }

  /** A character allowed unescaped inside a quoted string. */
  predicate QText(c: char)
  {
    var n := c as int;
    n != 0x0d && n != 0x22 && n != 0x5c && !(0x80 <= n <= 0xff)
  }

  /** A character allowed unescaped inside a domain literal. */
  predicate DText(c: char)
  {
    var n := c as int;
    n != 0x0d && !(0x5b <= n <= 0x5d) && !(0x80 <= n <= 0xff)
  }

  /** The end of the longest run of atom characters starting at `i`. */
  function AtomEnd(s: string, i: nat): (j: nat)
    requires i <= |s|
    ensures i <= j <= |s|
    decreases |s| - i
  {
    if i < |s| && AtomChar(s[i]) then AtomEnd(s, i + 1) else i
  }

  /** The rest of a quoted string or domain literal from inside it, up to and including the closing `close`. */
  function BracketedEnd(s: string, i: nat, close: char, plain: char -> bool): (r: Option<nat>)
    requires i <= |s|
    ensures r.Some? ==> i < r.value <= |s| && s[r.value - 1] == close
    decreases |s| - i
  {
    if i == |s| then None
    else if s[i] == close then Some(i + 1)
    else if s[i] == '\\' then
      (if i + 1 < |s| && (s[i + 1] as int) <= 0x7f then BracketedEnd(s, i + 2, close, plain) else None)
    else if plain(s[i]) then BracketedEnd(s, i + 1, close, plain)
    else None
  }

  /** One word of the local part (atom or quoted string) starting at `i`, or one sub-domain when `domain`. */
  function ItemEnd(s: string, i: nat, domain: bool): (r: Option<nat>)
    requires i <= |s|
    ensures r.Some? ==> i < r.value <= |s|
  {
    if !domain && i < |s| && s[i] == '"' then BracketedEnd(s, i + 1, '"', QText)
    else if domain && i < |s| && s[i] == '[' then BracketedEnd(s, i + 1, ']', DText)
    else
      var j := AtomEnd(s, i);
      if j > i then Some(j) else None
  }

  /** Items separated by dots, starting at `i`; the position after the last one. */
  function DottedEnd(s: string, i: nat, domain: bool): (r: Option<nat>)
    requires i <= |s|
    ensures r.Some? ==> i < r.value <= |s|
    ensures r.Some? && r.value < |s| ==> s[r.value] != '.'
    decreases |s| - i
  {
    match ItemEnd(s, i, domain)
    case None => None
    case Some(j) => if j < |s| && s[j] == '.' then DottedEnd(s, j + 1, domain) else Some(j)
  }

  /** The whole text is `local-part "@" domain`. */
  predicate AddrSpec(s: string)
  {
    match DottedEnd(s, 0, false)
    case None => false
    case Some(j) => j < |s| && s[j] == '@' && DottedEnd(s, j + 1, true) == Some(|s|)
  }

  // ---- what addr-spec accepts ---------------------------------------------------------

  predicate IsAtom(a: string) { |a| >= 1 && forall k :: 0 <= k < |a| ==> AtomChar(a[k]) }

  lemma AtomEndOf(s: string, i: nat, a: string)
    requires IsAtom(a) && i + |a| <= |s| && s[i..i + |a|] == a
    requires i + |a| == |s| || !AtomChar(s[i + |a|])
    ensures AtomEnd(s, i) == i + |a|
    decreases |a|
  {
    assert s[i] == a[0];
    if |a| > 1 {
      assert s[i + 1..i + |a|] == a[1..];
      AtomEndOf(s, i + 1, a[1..]);
    }
  }

  lemma ItemEndAtom(s: string, i: nat, a: string, domain: bool)
    requires IsAtom(a) && i + |a| <= |s| && s[i..i + |a|] == a
    requires i + |a| == |s| || !AtomChar(s[i + |a|])
    ensures ItemEnd(s, i, domain) == Some(i + |a|)
  {
    assert s[i] == a[0];
    AtomEndOf(s, i, a);
  }

  /** A dot after an item continues the dotted sequence. */
  lemma DottedStep(s: string, i: nat, j: nat, domain: bool)
    requires i <= |s| && ItemEnd(s, i, domain) == Some(j) && j < |s| && s[j] == '.'
    ensures DottedEnd(s, i, domain) == DottedEnd(s, j + 1, domain)
  {
  }

  /** Anything but a dot after an item ends the dotted sequence. */
  lemma DottedLast(s: string, i: nat, j: nat, domain: bool)
    requires i <= |s| && ItemEnd(s, i, domain) == Some(j) && (j == |s| || s[j] != '.')
    ensures DottedEnd(s, i, domain) == Some(j)
  {
  }

  /** Atoms joined by dots, followed by something that is neither an atom character nor a dot, are scanned in one go. */
  lemma {:induction false} DottedAtoms(s: string, i: nat, atoms: seq<string>, t: string, domain: bool)
    requires |atoms| >= 1 && forall k :: 0 <= k < |atoms| ==> IsAtom(atoms[k])
    requires t == Join(atoms, '.')
    requires i + |t| <= |s| && s[i..i + |t|] == t
    requires i + |t| == |s| || (!AtomChar(s[i + |t|]) && s[i + |t|] != '.')
    ensures DottedEnd(s, i, domain) == Some(i + |t|)
    decreases |atoms|
  {
    var a := atoms[0];
    if |atoms| == 1 {
      ItemEndAtom(s, i, a, domain);
      DottedLast(s, i, i + |a|, domain);
    } else {
      var rest := Join(atoms[1..], '.');
      assert t == a + ['.'] + rest;
      assert s[i..i + |a|] == t[..|a|] == a;
      assert s[i + |a|] == t[|a|] == '.';
      ItemEndAtom(s, i, a, domain);
      DottedStep(s, i, i + |a|, domain);
      assert s[i + |a| + 1..i + |t|] == t[|a| + 1..] == rest;
      assert forall k :: 0 <= k < |atoms[1..]| ==> IsAtom(atoms[1..][k]) by {
        forall k | 0 <= k < |atoms[1..]| ensures IsAtom(atoms[1..][k]) {
          assert atoms[1..][k] == atoms[k + 1];
        }
      }
      var i2 := i + |a| + 1;
      assert |t| == |a| + 1 + |rest|;
      assert i2 + |rest| == i + |t|;
      assert s[i2..i2 + |rest|] == rest;
      DottedAtoms(s, i2, atoms[1..], rest, domain);
    }
  }

  /** Every dot-atom address is accepted: dot-separated atoms, "@", dot-separated atoms. */
  lemma DotAtomAccepted(local: seq<string>, domain: seq<string>)
    requires |local| >= 1 && forall k :: 0 <= k < |local| ==> IsAtom(local[k])
    requires |domain| >= 1 && forall k :: 0 <= k < |domain| ==> IsAtom(domain[k])
    ensures AddrSpec(Join(local, '.') + "@" + Join(domain, '.'))
  {
    var l := Join(local, '.');
    var d := Join(domain, '.');
    AroundAt(l, d);
    var s := l + "@" + d;
    LocalPartScanned(s, local, |l|);
    DomainScanned(s, domain, |l| + 1);
    AddrSpecFromEnds(s, |l|);
  }

  lemma AroundAt(l: string, d: string)
    ensures var s := l + "@" + d;
            |l| < |s| && s[..|l|] == l && s[|l|] == '@' && s[|l| + 1..] == d
  {
    var s := l + "@" + d;
    assert |s| == |l| + 1 + |d|;
  }

  lemma LocalPartScanned(s: string, local: seq<string>, j: nat)
    requires |local| >= 1 && forall k :: 0 <= k < |local| ==> IsAtom(local[k])
    requires j < |s| && s[..j] == Join(local, '.') && s[j] == '@'
    ensures DottedEnd(s, 0, false) == Some(j)
  {
    var l := Join(local, '.');
    assert s[0..|l|] == l;
    assert !AtomChar('@');
    DottedAtoms(s, 0, local, l, false);
  }

  lemma DomainScanned(s: string, domain: seq<string>, i: nat)
    requires |domain| >= 1 && forall k :: 0 <= k < |domain| ==> IsAtom(domain[k])
    requires i <= |s| && s[i..] == Join(domain, '.')
    ensures DottedEnd(s, i, true) == Some(|s|)
  {
    var d := Join(domain, '.');
    assert i + |d| == |s|;
    assert s[i..i + |d|] == d;
    DottedAtoms(s, i, domain, d, true);
  }

  lemma AddrSpecFromEnds(s: string, j: nat)
    requires j < |s| && s[j] == '@'
    requires DottedEnd(s, 0, false) == Some(j) && DottedEnd(s, j + 1, true) == Some(|s|)
    ensures AddrSpec(s)
  {
  }

  /** Some concrete verdicts. */
  lemma AddrSpecExamples()
    ensures !AddrSpec("") && !AddrSpec("@mail")
    ensures !AddrSpec("ivan..petrov@mail")
  {
    assert AtomEnd("", 0) == 0;
    assert AtomEnd("@mail", 0) == 0;
    var s := "ivan..petrov@mail";
    assert s[5] == '.' && !AtomChar(s[5]);
    assert AtomEnd(s, 5) == 5;
    assert s[4] == '.' && !AtomChar(s[4]);
    assert AtomEnd(s, 4) == 4;
    assert AtomEnd(s, 3) == 4;
    assert AtomEnd(s, 2) == 4;
    assert AtomEnd(s, 1) == 4;
    assert AtomEnd(s, 0) == 4;
  }

  /** An accepted address contains an "@". */
  lemma AddrSpecHasAt(s: string)
    requires AddrSpec(s)
    ensures '@' in s
  {
    var j := DottedEnd(s, 0, false).value;
    assert s[j] == '@';
  }
}
