// The Redis-backed email confirmation: one key per email holding
// "code:attempts" with an expiry; three wrong codes lock the record until it
// expires.
module EmailConfirm {
  import opened Common
  import Text
  import Decimal

  type U32 = x: nat | x < 0x1_0000_0000

  const MaxAttempts := 3
  const RequestCodeFirst := "Сначала запросите код подтверждения"
  const TooManyAttempts := "Превышено количество попыток"
  const AlreadySent := "Код уже отправлен"

  /** A reply of the adapter: a value, an error text, or a panic from an `unwrap`. */
  datatype Reply<T> = Good(value: T) | Bad(msg: string) | Crash

  /** The stored text for a code and its attempt count. */
  function Record(code: nat, attempts: nat): (s: string)
    ensures ':' in s
  {
    Decimal.NatToString(code) + ":" + Decimal.NatToString(attempts)
  }

  /** `parse::<u32>()`: None where an `unwrap` would panic. */
  function ParseU32(s: string): (r: Option<U32>)
    ensures r.Some? <==> Decimal.ParseNat(s).Some? && Decimal.ParseNat(s).value < 0x1_0000_0000
  {
    match Decimal.ParseNat(s)
    case Some(n) => if n < 0x1_0000_0000 then Some(n) else None
    case None => None
  }

  /** `split_once(':')` and both fields read by `parse::<u32>()`; None where an `unwrap` would panic. */
  function ParseRecord(s: string): (r: Option<(nat, nat)>)
    ensures r.Some? ==> r.value.0 < 0x1_0000_0000 && r.value.1 < 0x1_0000_0000
  {
    match Text.SplitOnce(s, ':')
    case None => None
    case Some((c, a)) =>
      match (ParseU32(c), ParseU32(a))
      case (Some(code), Some(attempts)) => Some((code, attempts))
      case _ => None
  }

  /** The record after a wrong code: the stored code's text as it was, and one more attempt. */
  function Bumped(codeText: string, attempts: nat): (s: string)
    ensures ':' in s
  {
    codeText + ":" + Decimal.NatToString(attempts + 1)
  }

  /** Reading a stored record back gives the code and count that were written. */
  lemma RecordRoundTrip(code: nat, attempts: nat)
    requires code < 0x1_0000_0000 && attempts < 0x1_0000_0000
    ensures ParseRecord(Record(code, attempts)) == Some((code, attempts))
  {
    Decimal.NatToStringNoColon(code);
    Text.SplitOnceGlue(Decimal.NatToString(code), ':', Decimal.NatToString(attempts));
    assert Record(code, attempts) == Decimal.NatToString(code) + [':'] + Decimal.NatToString(attempts);
    Decimal.ParseNatToString(code);
    Decimal.ParseNatToString(attempts);
  }

  /** A stored value as the adapter writes it: a six-digit code and at most three attempts. */
  predicate GoodRecord(s: string)
  {
    ParseRecord(s).Some? && 100000 <= ParseRecord(s).value.0 <= 999999 && ParseRecord(s).value.1 <= MaxAttempts
  }

  /** Every stored value is a good record. */
  ghost predicate WellFormed(values: map<string, string>)
  {
    forall k :: k in values ==> GoodRecord(values[k])
  }

  /** The remaining lifetime Redis reports: -1 for a key without one. */
  function Ttl(ttl: map<string, int>, key: string): int
  {
    if key in ttl then ttl[key] else -1
  }

  /**
   * `confirm_email`: the reply, the values and the lifetimes afterwards. The
   * attempts are read and tested before the code is read. A wrong code
   * rewrites the record, which clears its lifetime, and then puts back a
   * positive one.
   */
  function ConfirmSpec(values: map<string, string>, ttl: map<string, int>, email: string, code: U32)
    : (Reply<bool>, map<string, string>, map<string, int>)
  {
    if email !in values then (Bad(RequestCodeFirst), values, ttl)
    else
      match Text.SplitOnce(values[email], ':')
      case None => (Crash, values, ttl)
      case Some((codeText, attemptsText)) =>
        match ParseU32(attemptsText)
        case None => (Crash, values, ttl)
        case Some(attempts) =>
          if attempts >= MaxAttempts then (Bad(TooManyAttempts), values, ttl)
          else
            match ParseU32(codeText)
            case None => (Crash, values, ttl)
            case Some(stored) =>
              if stored == code then (Good(true), values - {email}, ttl - {email})
              else
                var left := Ttl(ttl, email);
                (Good(false), values[email := Bumped(codeText, attempts)],
                 if left > 0 then ttl else ttl - {email})
  }

  /**
   * `send_code`, apart from publishing the message: refused while a record
   * exists, else `"{code}:0"` with the configured lifetime. Redis's `EXPIRE`
   * with a timeout of 0 deletes the key, so a zero lifetime stores nothing.
   */
  function SendSpec(values: map<string, string>, ttl: map<string, int>, email: string, code: nat, expiration: U32)
    : (Reply<()>, map<string, string>, map<string, int>)
  {
    if email in values then (Bad(AlreadySent), values, ttl)
    else if expiration == 0 then (Good(()), values - {email}, ttl - {email})
    else (Good(()), values[email := Record(code, 0)], ttl[email := expiration])
  }

  // ---- properties ----------------------------------------------------------

  /**
   * `send_code` keeps the store well formed; a fresh record carries six digits,
   * no attempts and the configured lifetime, and with a zero lifetime it is gone.
   */
  lemma SendKeepsWellFormed(values: map<string, string>, ttl: map<string, int>, email: string, code: nat, expiration: U32)
    requires WellFormed(values) && 100000 <= code <= 999999
    ensures var (r, v2, t2) := SendSpec(values, ttl, email, code, expiration);
            && WellFormed(v2)
            && (r.Good? <==> email !in values)
            && (r.Good? && expiration > 0 ==>
                  email in v2 && ParseRecord(v2[email]) == Some((code, 0)) && |Decimal.NatToString(code)| == 6 &&
                  Ttl(t2, email) == expiration)
            && (r.Good? && expiration == 0 ==> email !in v2 && email !in t2)
  {
    RecordRoundTrip(code, 0);
    Decimal.SixDigits(code);
  }

  /**
   * On a well-formed store `confirm_email` never panics and keeps the store
   * well formed; the attempt count only grows by one on a wrong code.
   */
  lemma ConfirmKeepsWellFormed(values: map<string, string>, ttl: map<string, int>, email: string, code: U32)
    requires WellFormed(values)
    ensures var (r, v2, _) := ConfirmSpec(values, ttl, email, code);
            !r.Crash? && WellFormed(v2)
  {
    if email in values {
      assert GoodRecord(values[email]);
      var (c, a) := Text.SplitOnce(values[email], ':').value;
      var stored, attempts := ParseU32(c).value, ParseU32(a).value;
      var spec := ConfirmSpec(values, ttl, email, code);
      if attempts >= MaxAttempts {
        assert spec.1 == values;
      } else if stored == code {
        assert spec.1 == values - {email};
      } else {
        var s := Bumped(c, attempts);
        BumpedGood(c, stored, attempts);
        assert spec.1 == values[email := s];
        StoreKeepsWellFormed(values, email, s);
      }
    }
  }

  /** One more wrong attempt, below the limit, still gives a good record. */
  lemma BumpedGood(codeText: string, stored: nat, attempts: nat)
    requires ':' !in codeText && ParseU32(codeText) == Some(stored)
    requires 100000 <= stored <= 999999 && attempts < MaxAttempts
    ensures ParseRecord(Bumped(codeText, attempts)) == Some((stored, attempts + 1))
    ensures GoodRecord(Bumped(codeText, attempts))
  {
    Text.SplitOnceGlue(codeText, ':', Decimal.NatToString(attempts + 1));
    assert Bumped(codeText, attempts) == codeText + [':'] + Decimal.NatToString(attempts + 1);
    Decimal.ParseNatToString(attempts + 1);
  }

  /** Storing a good record keeps a well-formed store well formed. */
  lemma StoreKeepsWellFormed(values: map<string, string>, key: string, s: string)
    requires WellFormed(values) && GoodRecord(s)
    ensures WellFormed(values[key := s])
  {
    var v2 := values[key := s];
    forall k | k in v2 ensures GoodRecord(v2[k]) {
      if k != key {
        assert v2[k] == values[k];
      }
    }
  }

  /** The right code, before the limit, deletes the record and answers true. */
  lemma CorrectCodeDeletes(values: map<string, string>, ttl: map<string, int>, email: string, code: U32, attempts: nat)
    requires attempts < MaxAttempts
    requires email in values && values[email] == Record(code, attempts)
    ensures ConfirmSpec(values, ttl, email, code) == (Good(true), values - {email}, ttl - {email})
  {
    RecordRoundTrip(code, attempts);
  }

  /** A wrong code before the limit keeps the code, counts one more attempt, keeps a positive lifetime and answers false. */
  lemma WrongCodeCounts(values: map<string, string>, ttl: map<string, int>, email: string, stored: U32, code: U32, attempts: nat)
    requires attempts < MaxAttempts && stored != code
    requires email in values && values[email] == Record(stored, attempts)
    ensures var (r, v2, t2) := ConfirmSpec(values, ttl, email, code);
            && r == Good(false)
            && v2 == values[email := Record(stored, attempts + 1)]
            && ParseRecord(v2[email]) == Some((stored, attempts + 1))
            && (Ttl(ttl, email) > 0 ==> t2 == ttl)
  {
    RecordRoundTrip(stored, attempts);
    RecordRoundTrip(stored, attempts + 1);
  }

  /** Once three attempts are recorded every code is refused, the right one too, and nothing changes. */
  lemma LockedRecord(values: map<string, string>, ttl: map<string, int>, email: string, stored: U32, code: U32, attempts: nat)
    requires MaxAttempts <= attempts < 0x1_0000_0000
    requires email in values && values[email] == Record(stored, attempts)
    ensures ConfirmSpec(values, ttl, email, code) == (Bad(TooManyAttempts), values, ttl)
  {
    RecordRoundTrip(stored, attempts);
  }

  /**
   * The attempts are tested before the code is read: a locked record is
   * refused whatever its code field holds, even text that is not a number.
   */
  lemma AttemptsReadFirst(values: map<string, string>, ttl: map<string, int>, email: string,
                          codeText: string, attempts: nat, code: U32)
    requires MaxAttempts <= attempts < 0x1_0000_0000 && ':' !in codeText
    requires email in values && values[email] == codeText + ":" + Decimal.NatToString(attempts)
    ensures ConfirmSpec(values, ttl, email, code) == (Bad(TooManyAttempts), values, ttl)
  {
    Text.SplitOnceGlue(codeText, ':', Decimal.NatToString(attempts));
    assert values[email] == codeText + [':'] + Decimal.NatToString(attempts);
    Decimal.ParseNatToString(attempts);
  }

  /** Three wrong codes in a row lock the record: a fourth try with the right code is refused. */
  lemma ThreeStrikes(values: map<string, string>, ttl: map<string, int>, email: string, stored: U32, wrong: U32)
    requires stored != wrong && email in values && values[email] == Record(stored, 0)
    ensures var (_, v1, t1) := ConfirmSpec(values, ttl, email, wrong);
            var (_, v2, t2) := ConfirmSpec(v1, t1, email, wrong);
            var (_, v3, t3) := ConfirmSpec(v2, t2, email, wrong);
            ConfirmSpec(v3, t3, email, stored).0 == Bad(TooManyAttempts)
  {
    WrongCodeCounts(values, ttl, email, stored, wrong, 0);
    var (_, v1, t1) := ConfirmSpec(values, ttl, email, wrong);
    WrongCodeCounts(v1, t1, email, stored, wrong, 1);
    var (_, v2, t2) := ConfirmSpec(v1, t1, email, wrong);
    WrongCodeCounts(v2, t2, email, stored, wrong, 2);
    var (_, v3, t3) := ConfirmSpec(v2, t2, email, wrong);
    LockedRecord(v3, t3, email, stored, stored, 3);
  }

  // ---- the adapter ----------------------------------------------------------

  /** The Redis key space the adapter uses: values and remaining lifetimes, by email. */
  class EmailConfirmAdapter {
    var values: map<string, string>
    var ttl: map<string, int>
    const codeExpiration: U32

    constructor (codeExpiration: U32)
      ensures values == map[] && ttl == map[] && this.codeExpiration == codeExpiration
    {
      values, ttl := map[], map[];
      this.codeExpiration := codeExpiration;
    }

    /** `confirm_email`, step by step through get, ttl, set and expire. */
    method ConfirmEmail(email: string, code: U32) returns (r: Reply<bool>)
      modifies this
      ensures (r, values, ttl) == ConfirmSpec(old(values), old(ttl), email, code)
    {
      if email !in values {
        return Bad(RequestCodeFirst);
      }
      var pieces := Text.SplitOnce(values[email], ':');
      if pieces.None? {
        return Crash;
      }
      var (codeText, attemptsText) := pieces.value;
      var readAttempts := ParseU32(attemptsText);
      if readAttempts.None? {
        return Crash;
      }
      var attempts := readAttempts.value;
      if attempts >= MaxAttempts {
        return Bad(TooManyAttempts);
      }
      var readCode := ParseU32(codeText);
      if readCode.None? {
        return Crash;
      }
      var stored := readCode.value;
      if stored == code {
        values := values - {email};
        ttl := ttl - {email};
        return Good(true);
      }
      var left := Ttl(ttl, email);
      ghost var before := ttl;
      values := values[email := Bumped(codeText, attempts)];
      ttl := ttl - {email};
      if left > 0 {
        ttl := ttl[email := left];
        assert ttl == before;
      }
      return Good(false);
    }

    /** `send_code`, step by step through set and expire; `code` is the random draw from 100000..=999999. */
    method SendCode(email: string, code: nat) returns (r: Reply<()>)
      requires 100000 <= code <= 999999
      modifies this
      ensures (r, values, ttl) == SendSpec(old(values), old(ttl), email, code, codeExpiration)
    {
      if email in values {
        return Bad(AlreadySent);
      }
      values := values[email := Record(code, 0)];
      ttl := ttl - {email};
      if codeExpiration > 0 {
        ttl := ttl[email := codeExpiration];
        assert ttl == old(ttl)[email := codeExpiration];
      } else {
        values := values - {email};
        assert values == old(values) - {email};
      }
      return Good(());
    }
  }
}
