// The confirmation-code utility of the Python service: codes are fields of
// one Redis hash, each holding "send_time:attempts". Generating refuses
// when too many codes were sent or the last one is too recent; verifying
// looks only at the last code, counts wrong guesses on it, and refuses it
// when stale.
module ConfirmCode {
  import opened Common
  import opened Assoc
  import opened Decimal
  import opened Text
  import opened RedisModel
  import opened PyCommon

  /** What the hash records about a code: when it was sent and how many wrong guesses followed. */
  datatype Stamp = Stamp(sendTime: int, attempts: int)

  /** The six settings the setters store; each is `None` until set. */
  datatype Config = Config(key: Option<string>, maxGenAttempts: Option<int>, maxVerifyAttempts: Option<int>,
                           keyLifetime: Option<int>, codeValidTime: Option<int>, genInterval: Option<int>)

  predicate Configured(c: Config)
  {
    c.key.Some? && c.maxGenAttempts.Some? && c.maxVerifyAttempts.Some? && c.keyLifetime.Some?
    && c.codeValidTime.Some? && c.genInterval.Some?
  }

  function Last<T>(s: seq<T>): T
    requires s != []
  {
    s[|s| - 1]
  }

  /** The value stored under a code: the send time and the attempts, joined by ':'. */
  function RenderStamp(st: Stamp): string
  {
    IntToString(st.sendTime) + ":" + IntToString(st.attempts)
  }

  /**
   * One hash entry read back: the send time is the text before the first
   * ':', the attempts the text between the first and the second, and the
   * code the field itself.
   */
  function ParseEntry(field: string, data: string): (r: Py<(int, Stamp)>)
    ensures r.Raise? ==> r.exc == ValueError || r.exc == IndexError
    ensures r.Return? ==> ParseInt(field) == Some(r.value.0)
                          && ParseInt(Split(data, ':')[0]) == Some(r.value.1.sendTime)
                          && |Split(data, ':')| >= 2
                          && ParseInt(Split(data, ':')[1]) == Some(r.value.1.attempts)
  {
    var pieces := Split(data, ':');
    match ParseInt(pieces[0])
    case None => Raise(ValueError)
    case Some(t) =>
      if |pieces| < 2 then Raise(IndexError)
      else
        match ParseInt(pieces[1])
        case None => Raise(ValueError)
        case Some(a) =>
          match ParseInt(field)
          case None => Raise(ValueError)
          case Some(code) => Return((code, Stamp(t, a)))
  }

  /** An entry written by this utility reads back as written. */
  lemma ParseRendered(code: int, st: Stamp)
    ensures ParseEntry(IntToString(code), RenderStamp(st)) == Return((code, st))
  {
    var a, b := IntToString(st.sendTime), IntToString(st.attempts);
    assert RenderStamp(st) == a + [':'] + b;
    SplitAfterClean(a, ':', b);
    SplitClean(b, ':');
    ParseIntToString(st.sendTime);
    ParseIntToString(st.attempts);
    ParseIntToString(code);
  }

  /**
   * The records: the entries in hash order, put into a dict keyed by the
   * code read back, so that the last entry of the hash is the last record.
   * The first entry that does not parse raises.
   */
  function Records(h: Hash): (r: Py<seq<(int, Stamp)>>)
    ensures r.Return? ==> DistinctKeys(r.value) && |r.value| <= |h|
  {
    if h == [] then Return([])
    else
      match Records(h[..|h| - 1])
      case Raise(e) => Raise(e)
      case Return(recs) =>
        match ParseEntry(h[|h| - 1].0, h[|h| - 1].1)
        case Raise(e) => Raise(e)
        case Return(entry) => Return(Put(recs, entry.0, entry.1))
  }

  /** Once an entry fails to parse, reading more entries raises the same error. */
  lemma {:induction false} RecordsRaiseExtends(h: Hash, n: nat)
    requires n <= |h| && Records(h[..n]).Raise?
    ensures Records(h) == Records(h[..n])
  {
    if n < |h| {
      var p := h[..|h| - 1];
      assert p[..n] == h[..n];
      RecordsRaiseExtends(p, n);
    } else {
      assert h[..n] == h;
    }
  }

  /** Reading one more entry that parses puts it into the records. */
  lemma RecordsSnoc(h: Hash, e: (string, string), recs: seq<(int, Stamp)>, entry: (int, Stamp))
    requires Records(h) == Return(recs) && ParseEntry(e.0, e.1) == Return(entry)
    ensures Records(h + [e]) == Return(Put(recs, entry.0, entry.1))
  {
    assert (h + [e])[..|h|] == h;
  }

  /** The hash field and value this utility writes for one record. */
  function Field(e: (int, Stamp)): (string, string)
  {
    (IntToString(e.0), RenderStamp(e.1))
  }

  /** The hash this utility writes for a record table: one field per code. */
  function Encode(recs: seq<(int, Stamp)>): (h: Hash)
    ensures |h| == |recs|
  {
    if recs == [] then []
    else
      var init := recs[..|recs| - 1];
      var h0 := Encode(init);
      h0 + [Field(Last(recs))]
  }

  /** Each record is written as its own field, in order. */
  lemma {:induction false} EncodeAt(recs: seq<(int, Stamp)>, i: nat)
    requires i < |recs|
    ensures Encode(recs)[i] == Field(recs[i])
    decreases |recs|
  {
    var init := recs[..|recs| - 1];
    var h0, e := Encode(init), Field(Last(recs));
    assert Encode(recs) == h0 + [e];
    if i < |init| {
      EncodeAt(init, i);
      assert init[i] == recs[i];
      assert Encode(recs)[i] == h0[i];
    } else {
      assert Encode(recs)[i] == e;
    }
  }

  lemma EncodeAll(recs: seq<(int, Stamp)>)
    ensures forall i :: 0 <= i < |recs| ==> Encode(recs)[i] == Field(recs[i])
  {
    forall i | 0 <= i < |recs| ensures Encode(recs)[i] == Field(recs[i]) {
      EncodeAt(recs, i);
    }
  }

  /** A code's field is where the code is. */
  lemma {:induction false} FindEncoded(recs: seq<(int, Stamp)>, code: int)
    ensures Find(Encode(recs), IntToString(code)) == Find(recs, code)
  {
    if recs != [] {
      var h := Encode(recs);
      EncodeAll(recs);
      EncodeAll(recs[1..]);
      assert Encode(recs[1..]) == h[1..];
      FindEncoded(recs[1..], code);
      if recs[0].0 != code {
        if h[0].0 == IntToString(code) {
          IntToStringInjective(recs[0].0, code);
        }
      }
    }
  }

  /** Setting a code's field in the hash is setting the code in the record table. */
  lemma EncodePut(recs: seq<(int, Stamp)>, code: int, st: Stamp)
    ensures Encode(Put(recs, code, st)) == Put(Encode(recs), IntToString(code), RenderStamp(st))
  {
    FindEncoded(recs, code);
    var l, r := Encode(Put(recs, code, st)), Put(Encode(recs), IntToString(code), RenderStamp(st));
    EncodeAll(recs);
    EncodeAll(Put(recs, code, st));
    assert |l| == |r|;
    forall i | 0 <= i < |l| ensures l[i] == r[i] {
    }
  }

  /** A hash this utility wrote reads back as the record table it stands for. */
  lemma {:induction false} RecordsOfEncoded(recs: seq<(int, Stamp)>)
    requires DistinctKeys(recs)
    ensures Records(Encode(recs)) == Return(recs)
  {
    if recs != [] {
      var p := recs[..|recs| - 1];
      DistinctInit(recs);
      RecordsOfEncoded(p);
      RecordsOfEncodedSnoc(p, Last(recs));
      assert p + [Last(recs)] == recs;
    }
  }

  lemma RecordsOfEncodedSnoc(p: seq<(int, Stamp)>, e: (int, Stamp))
    requires Records(Encode(p)) == Return(p) && Find(p, e.0).None?
    ensures Records(Encode(p + [e])) == Return(p + [e])
  {
    var r := p + [e];
    assert r[..|r| - 1] == p && Last(r) == e;
    assert Encode(r) == Encode(p) + [Field(e)];
    ParseRendered(e.0, e.1);
    RecordsSnoc(Encode(p), Field(e), p, e);
    assert Put(p, e.0, e.1) == r;
  }

  /** Without its last record a table still has distinct codes, none of them the last one's. */
  lemma DistinctInit(recs: seq<(int, Stamp)>)
    requires DistinctKeys(recs) && recs != []
    ensures DistinctKeys(recs[..|recs| - 1]) && Find(recs[..|recs| - 1], Last(recs).0).None?
  {
    var p := recs[..|recs| - 1];
    forall i, j | 0 <= i < j < |p| ensures p[i].0 != p[j].0 {
      assert p[i] == recs[i] && p[j] == recs[j];
    }
    forall j | 0 <= j < |p| ensures p[j].0 != Last(recs).0 {
      assert p[j] == recs[j];
    }
  }

  /**
   * `generate(from_num, to_num)` on the Redis contents `db`: `draw` stands
   * for what `randint` picks and `now` for `int(time.time())`. A setting
   * still unset raises where the code first uses it.
   */
  function GenerateSpec(c: Config, db: Store, fromNum: int, toNum: int, draw: nat, now: int): (Py<int>, Store)
  {
    if c.key.None? then (Raise(DataError), db)
    else
      var key := c.key.value;
      match Records(HashOf(db, key))
      case Raise(e) => (Raise(e), db)
      case Return(recs) =>
        if c.maxGenAttempts.None? then (Raise(TypeError), db)
        else if |recs| >= c.maxGenAttempts.value then (Raise(ManyGenAttemptsError), db)
        else if recs != [] && c.genInterval.None? then (Raise(TypeError), db)
        else if recs != [] && Last(recs).1.sendTime > now - c.genInterval.value then (Raise(AlreadyGenError), db)
        else if fromNum > toNum then (Raise(ValueError), db)
        else
          var code := fromNum + draw % (toNum - fromNum + 1);
          var db1 := HSetOp(db, key, IntToString(code), RenderStamp(Stamp(now, 0)));
          if c.keyLifetime.None? then (Raise(DataError), db1)
          else (Return(code), ExpireOp(db1, key, c.keyLifetime.value))
  }

  /**
   * `verify(code, delete_key)`: only the last record is looked at. Its
   * attempts are checked first, then the code (a wrong code counts one more
   * attempt), then its age.
   */
  function VerifySpec(c: Config, db: Store, code: int, deleteKey: bool, now: int): (Py<()>, Store)
  {
    if c.key.None? then (Raise(DataError), db)
    else
      var key := c.key.value;
      match Records(HashOf(db, key))
      case Raise(e) => (Raise(e), db)
      case Return(recs) =>
        if recs == [] then (Raise(NotGenError), db)
        else
          var (sent, st) := Last(recs);
          if c.maxVerifyAttempts.None? then (Raise(TypeError), db)
          else if st.attempts >= c.maxVerifyAttempts.value then (Raise(ManyConfirmAttemptsError), db)
          else if sent != code then
            (Raise(InvalidCodeError), HSetOp(db, key, IntToString(sent), RenderStamp(Stamp(st.sendTime, st.attempts + 1))))
          else if c.codeValidTime.None? then (Raise(TypeError), db)
          else if st.sendTime < now - c.codeValidTime.value then (Raise(ExpiredCodeError), db)
          else if deleteKey then (Return(()), DeleteOp(db, key))
          else (Return(()), db)
  }

  /**
   * The refusals of `generate`: too many codes sent, or the last one sent
   * less than the interval ago. Both leave Redis untouched. Otherwise the
   * code is drawn from the range, stored as "now:0", and the key's time to
   * live is set.
   */
  lemma GenerateLimits(c: Config, db: Store, fromNum: int, toNum: int, draw: nat, now: int,
                       recs: seq<(int, Stamp)>)
    requires Configured(c) && Records(HashOf(db, c.key.value)) == Return(recs)
    ensures var (r, db') := GenerateSpec(c, db, fromNum, toNum, draw, now);
            var key := c.key.value;
            && (|recs| >= c.maxGenAttempts.value ==> r == Raise(ManyGenAttemptsError) && db' == db)
            && (|recs| < c.maxGenAttempts.value && recs != [] && Last(recs).1.sendTime > now - c.genInterval.value ==>
                      r == Raise(AlreadyGenError) && db' == db)
            && (|recs| < c.maxGenAttempts.value && (recs == [] || Last(recs).1.sendTime <= now - c.genInterval.value)
                && fromNum <= toNum ==>
                      && r.Return? && fromNum <= r.value <= toNum
                      && (c.keyLifetime.value > 0 ==>
                            && HashOf(db', key) == Put(HashOf(db, key), IntToString(r.value), RenderStamp(Stamp(now, 0)))
                            && db'.ttls == db.ttls[key := c.keyLifetime.value])
                      && (c.keyLifetime.value <= 0 ==> !Exists(db', key)))
  {
    if |recs| < c.maxGenAttempts.value && (recs == [] || Last(recs).1.sendTime <= now - c.genInterval.value)
       && fromNum <= toNum {
      GenerateStores(c, db, fromNum, toNum, draw, now, recs);
    }
  }

  lemma GenerateStores(c: Config, db: Store, fromNum: int, toNum: int, draw: nat, now: int,
                       recs: seq<(int, Stamp)>)
    requires Configured(c) && Records(HashOf(db, c.key.value)) == Return(recs)
    requires |recs| < c.maxGenAttempts.value && (recs == [] || Last(recs).1.sendTime <= now - c.genInterval.value)
    requires fromNum <= toNum
    ensures var (r, db') := GenerateSpec(c, db, fromNum, toNum, draw, now);
            var key := c.key.value;
            && r.Return? && fromNum <= r.value <= toNum
            && var db1 := HSetOp(db, key, IntToString(r.value), RenderStamp(Stamp(now, 0)));
               db' == ExpireOp(db1, key, c.keyLifetime.value) && Exists(db1, key)
  {
    var n := toNum - fromNum + 1;
    assert 0 <= draw % n < n;
  }

  /** A verify that finds no code, or a last code with its attempts used up, refuses and changes nothing. */
  lemma VerifyRefusals(c: Config, db: Store, code: int, deleteKey: bool, now: int, recs: seq<(int, Stamp)>)
    requires Configured(c) && Records(HashOf(db, c.key.value)) == Return(recs)
    ensures var (r, db') := VerifySpec(c, db, code, deleteKey, now);
            && (recs == [] ==> r == Raise(NotGenError) && db' == db)
            && (recs != [] && Last(recs).1.attempts >= c.maxVerifyAttempts.value ==>
                      r == Raise(ManyConfirmAttemptsError) && db' == db)
  {
  }

  /**
   * A verify succeeds only on the last code sent, with attempts left and
   * within its validity; it then deletes the key exactly when asked to, and
   * otherwise leaves Redis as it was.
   */
  lemma VerifyAccepts(c: Config, db: Store, code: int, deleteKey: bool, now: int)
    requires VerifySpec(c, db, code, deleteKey, now).0.Return?
    ensures c.key.Some? && c.maxVerifyAttempts.Some? && c.codeValidTime.Some?
    ensures Records(HashOf(db, c.key.value)).Return?
    ensures var recs := Records(HashOf(db, c.key.value)).value;
            && recs != [] && Last(recs).0 == code
            && Last(recs).1.attempts < c.maxVerifyAttempts.value
            && now - c.codeValidTime.value <= Last(recs).1.sendTime
            && VerifySpec(c, db, code, deleteKey, now).1 == if deleteKey then DeleteOp(db, c.key.value) else db
  {
  }

  /**
   * A wrong code counts one attempt on the last record only: every other
   * record, the other keys and the times to live stay as they were.
   */
  lemma WrongCodeCountsAttempt(c: Config, db: Store, code: int, deleteKey: bool, now: int,
                               recs: seq<(int, Stamp)>)
    requires Configured(c) && DistinctKeys(recs) && HashOf(db, c.key.value) == Encode(recs)
    requires recs != [] && Last(recs).1.attempts < c.maxVerifyAttempts.value && Last(recs).0 != code
    ensures var (r, db') := VerifySpec(c, db, code, deleteKey, now);
            var (sent, st) := Last(recs);
            && r == Raise(InvalidCodeError)
            && HashOf(db', c.key.value) == Encode(recs[|recs| - 1 := (sent, Stamp(st.sendTime, st.attempts + 1))])
            && (forall k :: k != c.key.value ==> HashOf(db', k) == HashOf(db, k))
            && db'.ttls == db.ttls
  {
    var key := c.key.value;
    RecordsOfEncoded(recs);
    assert Records(HashOf(db, key)) == Return(recs);
    var (sent, st) := Last(recs);
    var st' := Stamp(st.sendTime, st.attempts + 1);
    var db' := HSetOp(db, key, IntToString(sent), RenderStamp(st'));
    assert VerifySpec(c, db, code, deleteKey, now) == (Raise(InvalidCodeError), db');
    FindDistinct(recs, |recs| - 1);
    assert Put(recs, sent, st') == recs[|recs| - 1 := (sent, st')];
    EncodePut(recs, sent, st');
    assert HashOf(db', key) == Put(Encode(recs), IntToString(sent), RenderStamp(st'));
  }

  /** A right code that is too old is refused as expired, and nothing changes: no attempt is counted. */
  lemma StaleCodeExpires(c: Config, db: Store, deleteKey: bool, now: int, recs: seq<(int, Stamp)>)
    requires Configured(c) && Records(HashOf(db, c.key.value)) == Return(recs)
    requires recs != [] && Last(recs).1.attempts < c.maxVerifyAttempts.value
    requires Last(recs).1.sendTime < now - c.codeValidTime.value
    ensures VerifySpec(c, db, Last(recs).0, deleteKey, now) == (Raise(ExpiredCodeError), db)
  {
  }

  /** After a successful verify that deletes the key, any later verify finds no code. */
  lemma DeletedThenNotGenerated(c: Config, db: Store, code: int, now: int, code2: int, deleteKey2: bool, now2: int)
    requires VerifySpec(c, db, code, true, now).0.Return?
    ensures var db' := VerifySpec(c, db, code, true, now).1;
            VerifySpec(c, db', code2, deleteKey2, now2) == (Raise(NotGenError), db')
  {
    var db' := VerifySpec(c, db, code, true, now).1;
    assert HashOf(db', c.key.value) == [];
  }

  /**
   * A code just generated, which no earlier record had, is accepted by a
   * verify at the same instant as long as one attempt is allowed and the
   * validity time is not negative.
   */
  lemma GenerateThenVerify(c: Config, db: Store, fromNum: int, toNum: int, draw: nat, now: int,
                           recs: seq<(int, Stamp)>, deleteKey: bool)
    requires Configured(c) && DistinctKeys(recs) && HashOf(db, c.key.value) == Encode(recs)
    requires c.keyLifetime.value > 0 && c.maxVerifyAttempts.value >= 1 && c.codeValidTime.value >= 0
    requires GenerateSpec(c, db, fromNum, toNum, draw, now).0.Return?
    requires Find(recs, GenerateSpec(c, db, fromNum, toNum, draw, now).0.value).None?
    ensures var (r, db') := GenerateSpec(c, db, fromNum, toNum, draw, now);
            VerifySpec(c, db', r.value, deleteKey, now).0 == Return(())
  {
    var (r, db') := GenerateSpec(c, db, fromNum, toNum, draw, now);
    var code := r.value;
    var key := c.key.value;
    var st := Stamp(now, 0);
    RecordsOfEncoded(recs);
    GenerateLimits(c, db, fromNum, toNum, draw, now, recs);
    EncodePut(recs, code, st);
    var recs' := recs + [(code, st)];
    assert Put(recs, code, st) == recs';
    assert HashOf(db', key) == Encode(recs');
    DistinctSnoc(recs, code, st);
    RecordsOfEncoded(recs');
    VerifyLastFresh(c, db', recs', code, deleteKey, now);
  }

  lemma DistinctSnoc(recs: seq<(int, Stamp)>, code: int, st: Stamp)
    requires DistinctKeys(recs) && Find(recs, code).None?
    ensures DistinctKeys(recs + [(code, st)])
  {
    var recs' := recs + [(code, st)];
    forall i, j | 0 <= i < j < |recs'| ensures recs'[i].0 != recs'[j].0 {
      assert recs'[i] == recs[i];
      if j < |recs| {
        assert recs'[j] == recs[j];
      }
    }
  }

  /** A verify at the send time of the last record, before any wrong guess, with its code, is accepted. */
  lemma VerifyLastFresh(c: Config, db: Store, recs: seq<(int, Stamp)>, code: int, deleteKey: bool, now: int)
    requires Configured(c) && Records(HashOf(db, c.key.value)) == Return(recs)
    requires recs != [] && Last(recs) == (code, Stamp(now, 0))
    requires c.maxVerifyAttempts.value >= 1 && c.codeValidTime.value >= 0
    ensures VerifySpec(c, db, code, deleteKey, now).0 == Return(())
  {
  }

  /** `ConfirmCodeUtil`: its settings, and the Redis connection it was built with. */
  class ConfirmCodeUtil {
    var key: Option<string>
    var maxGenAttempts: Option<int>
    var maxVerifyAttempts: Option<int>
    var keyLifetime: Option<int>
    var codeValidTime: Option<int>
    var genInterval: Option<int>
    const redis: RedisClient

    constructor (redis: RedisClient)
      ensures this.redis == redis && Settings() == Config(None, None, None, None, None, None)
    {
      this.redis := redis;
      key, maxGenAttempts, maxVerifyAttempts := None, None, None;
      keyLifetime, codeValidTime, genInterval := None, None, None;
    }

    function Settings(): Config
      reads this
    {
      Config(key, maxGenAttempts, maxVerifyAttempts, keyLifetime, codeValidTime, genInterval)
    }

    method SetKey(k: string)
      modifies this
      ensures Settings() == old(Settings()).(key := Some(k))
    {
      key := Some(k);
    }

    method SetMaxGenAttempts(attempts: int)
      modifies this
      ensures Settings() == old(Settings()).(maxGenAttempts := Some(attempts))
    {
      maxGenAttempts := Some(attempts);
    }

    method SetMaxVerifyAttempts(attempts: int)
      modifies this
      ensures Settings() == old(Settings()).(maxVerifyAttempts := Some(attempts))
    {
      maxVerifyAttempts := Some(attempts);
    }

    method SetKeyLifetime(seconds: int)
      modifies this
      ensures Settings() == old(Settings()).(keyLifetime := Some(seconds))
    {
      keyLifetime := Some(seconds);
    }

    method SetCodeValidTime(seconds: int)
      modifies this
      ensures Settings() == old(Settings()).(codeValidTime := Some(seconds))
    {
      codeValidTime := Some(seconds);
    }

    method SetGenInterval(seconds: int)
      modifies this
      ensures Settings() == old(Settings()).(genInterval := Some(seconds))
    {
      genInterval := Some(seconds);
    }

    /** `__get_records`: the entries of the hash read one by one into a dict. */
    method GetRecords() returns (r: Py<seq<(int, Stamp)>>)
      ensures key.None? ==> r == Raise(DataError)
      ensures key.Some? ==> r == Records(redis.HGetAll(key.value))
    {
      if key.None? {
        return Raise(DataError);
      }
      var h := redis.HGetAll(key.value);
      var records: seq<(int, Stamp)> := [];
      var i := 0;
      while i < |h|
        invariant 0 <= i <= |h|
        invariant Records(h[..i]) == Return(records)
      {
        assert h[..i + 1][..i] == h[..i];
        var entry := ParseEntry(h[i].0, h[i].1);
        if entry.Raise? {
          RecordsRaiseExtends(h, i + 1);
          return Raise(entry.exc);
        }
        records := Put(records, entry.value.0, entry.value.1);
        i := i + 1;
      }
      assert h[..i] == h;
      return Return(records);
    }

    method Generate(fromNum: int, toNum: int, draw: nat, now: int) returns (r: Py<int>)
      modifies redis
      ensures (r, redis.db) == GenerateSpec(Settings(), old(redis.db), fromNum, toNum, draw, now)
    {
      ghost var c := Settings();
      ghost var db0 := redis.db;
      var records := GetRecords();
      if records.Raise? {
        return Raise(records.exc);
      }
      var recs := records.value;
      if maxGenAttempts.None? {
        return Raise(TypeError);
      }
      if |recs| >= maxGenAttempts.value {
        return Raise(ManyGenAttemptsError);
      }
      if recs != [] {
        var lastSendTime := Last(recs).1.sendTime;
        if genInterval.None? {
          return Raise(TypeError);
        }
        if lastSendTime > now - genInterval.value {
          return Raise(AlreadyGenError);
        }
      }
      if fromNum > toNum {
        return Raise(ValueError);
      }
      var code := fromNum + draw % (toNum - fromNum + 1);
      assert records == Records(HashOf(db0, c.key.value));
      redis.HSet(key.value, IntToString(code), RenderStamp(Stamp(now, 0)));
      ghost var db1 := redis.db;
      assert db1 == HSetOp(db0, c.key.value, IntToString(code), RenderStamp(Stamp(now, 0)));
      if keyLifetime.None? {
        assert GenerateSpec(c, db0, fromNum, toNum, draw, now) == (Raise(DataError), db1);
        return Raise(DataError);
      }
      redis.Expire(key.value, keyLifetime.value);
      assert GenerateSpec(c, db0, fromNum, toNum, draw, now) == (Return(code), ExpireOp(db1, c.key.value, c.keyLifetime.value));
      return Return(code);
    }

    method Verify(code: int, deleteKey: bool, now: int) returns (r: Py<()>)
      modifies redis
      ensures (r, redis.db) == VerifySpec(Settings(), old(redis.db), code, deleteKey, now)
    {
      ghost var c := Settings();
      ghost var db0 := redis.db;
      var records := GetRecords();
      if records.Raise? {
        return Raise(records.exc);
      }
      var recs := records.value;
      if recs == [] {
        return Raise(NotGenError);
      }
      var (lastSendCode, st) := Last(recs);
      if maxVerifyAttempts.None? {
        return Raise(TypeError);
      }
      if st.attempts >= maxVerifyAttempts.value {
        return Raise(ManyConfirmAttemptsError);
      }
      assert records == Records(HashOf(db0, c.key.value));
      if lastSendCode != code {
        redis.HSet(key.value, IntToString(lastSendCode), RenderStamp(Stamp(st.sendTime, st.attempts + 1)));
        assert redis.db == HSetOp(db0, c.key.value, IntToString(lastSendCode), RenderStamp(Stamp(st.sendTime, st.attempts + 1)));
        return Raise(InvalidCodeError);
      }
      if codeValidTime.None? {
        return Raise(TypeError);
      }
      if st.sendTime < now - codeValidTime.value {
        return Raise(ExpiredCodeError);
      }
      if deleteKey {
        redis.Delete(key.value);
      }
      return Return(());
    }

    /** `delete_key` starts a delete it never awaits, so nothing is deleted. */
    method DeleteKey()
      ensures redis.db == old(redis.db)
    {
    }
  }
}
