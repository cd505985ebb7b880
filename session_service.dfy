// The session rules of the Rust service: expiry, token creation,
// the user-agent fingerprint check and renewal.
module SessionService {
  import opened Common

  /** An unsigned 32-bit value, the type of the configured session lifetime. */
  type U32 = n: nat | n < 0x1_0000_0000

  /** A random byte. */
  type Byte = b: nat | b < 256

  datatype Session = Session(
    id: Uuid,
    tokenHash: string,
    userId: Uuid,
    ip: string,
    userAgent: string,
    createdAt: Time,
    updatedAt: Option<Time>)

  /** The instant a session was last touched: its renewal, or else its creation. */
  function LastActivity(s: Session): Time
  {
    match s.updatedAt
    case Some(t) => t
    case None => s.createdAt
  }

  /** A session is expired when its age is strictly greater than the lifetime. */
  predicate IsSessionExpired(sessionExpire: U32, s: Session, now: Time)
  {
    now - LastActivity(s) > sessionExpire
  }

  /** An age equal to the lifetime is not expired; one second more is. */
  lemma ExpiryBoundary(sessionExpire: U32, s: Session, now: Time)
    ensures now - LastActivity(s) == sessionExpire ==> !IsSessionExpired(sessionExpire, s, now)
    ensures now - LastActivity(s) == sessionExpire + 1 ==> IsSessionExpired(sessionExpire, s, now)
  {
  }

  /** Once expired, a session stays expired as time goes on. */
  lemma ExpiryMonotone(sessionExpire: U32, s: Session, now: Time, later: Time)
    requires now <= later && IsSessionExpired(sessionExpire, s, now)
    ensures IsSessionExpired(sessionExpire, s, later)
  {
  }

  predicate IsLowerHex(c: char) { '0' <= c <= '9' || 'a' <= c <= 'f' }

  function HexDigit(d: nat): (c: char)
    requires d < 16
    ensures IsLowerHex(c)
  {
    if d < 10 then ('0' as int + d) as char else ('a' as int + d - 10) as char
  }

  function HexValue(c: char): (d: nat)
    requires IsLowerHex(c)
    ensures d < 16 && HexDigit(d) == c
  {
    if c <= '9' then (c as int) - ('0' as int) else (c as int) - ('a' as int) + 10
  }

  /** `format!("{:02x}", b)`: two lowercase hex digits, high nibble first. */
  function HexByte(b: Byte): (s: string)
    ensures |s| == 2 && IsLowerHex(s[0]) && IsLowerHex(s[1])
  {
    [HexDigit(b / 16), HexDigit(b % 16)]
  }

  /** The per-byte renderings joined with the empty separator. */
  function HexString(bytes: seq<Byte>): (s: string)
    ensures |s| == 2 * |bytes|
    ensures forall i :: 0 <= i < |s| ==> IsLowerHex(s[i])
  {
    if bytes == [] then [] else HexByte(bytes[0]) + HexString(bytes[1..])
  }

  /** Reading a string of lowercase hex digit pairs back into bytes. */
  function HexDecode(s: string): seq<Byte>
    requires |s| % 2 == 0
    requires forall i :: 0 <= i < |s| ==> IsLowerHex(s[i])
  {
    if s == [] then [] else [HexValue(s[0]) * 16 + HexValue(s[1])] + HexDecode(s[2..])
  }

  /** Decoding a rendered token returns the bytes it was made from. */
  lemma {:induction false} HexDecodeString(bytes: seq<Byte>)
    ensures HexDecode(HexString(bytes)) == bytes
  {
    if bytes != [] {
      var s := HexString(bytes);
      assert s[..2] == HexByte(bytes[0]);
      assert s[2..] == HexString(bytes[1..]);
      HexDecodeString(bytes[1..]);
    }
  }

  /** Two tokens are equal only when they were made from the same bytes. */
  lemma HexStringInjective(a: seq<Byte>, b: seq<Byte>)
    requires HexString(a) == HexString(b)
    ensures a == b
  {
    HexDecodeString(a);
    HexDecodeString(b);
  }

  /** A session token: 64 random bytes rendered as 128 lowercase hex digits. */
  function CreateSessionToken(random: seq<Byte>): (token: string)
    requires |random| == 64
    ensures |token| == 128
    ensures forall i :: 0 <= i < |token| ==> IsLowerHex(token[i])
    ensures HexDecode(token) == random
  {
    HexDecodeString(random);
    HexString(random)
  }

  /** A new session: `id` is the fresh v4 UUID and `now` the creation instant. */
  function CreateSession(id: Uuid, tokenHash: string, userId: Uuid, ip: string, userAgent: string, now: Time): (s: Session)
    ensures s.id == id && s.tokenHash == tokenHash && s.userId == userId
    ensures s.ip == ip && s.userAgent == userAgent
    ensures s.createdAt == now && s.updatedAt == None
  {
    Session(id, tokenHash, userId, ip, userAgent, now, None)
  }

  /** The fingerprint check: the stored user agent must equal the presented one; the IP is not compared. */
  predicate VerifySession(s: Session, userAgent: string)
  {
    s.userAgent == userAgent
  }

  /** Renewal: a new IP and user agent, and `updated_at` set to now. */
  function UpdateSession(s: Session, newIp: string, newUserAgent: string, now: Time): (r: Session)
    ensures r.id == s.id && r.tokenHash == s.tokenHash && r.userId == s.userId && r.createdAt == s.createdAt
    ensures r.ip == newIp && r.userAgent == newUserAgent && r.updatedAt == Some(now)
  {
    s.(ip := newIp, userAgent := newUserAgent, updatedAt := Some(now))
  }

  /** A session created or renewed at `now` is not expired at `now`, and it passes the fingerprint check for its own user agent. */
  lemma FreshSessionValid(sessionExpire: U32, s: Session, ip: string, ua: string, id: Uuid, hash: string, user: Uuid, now: Time)
    ensures !IsSessionExpired(sessionExpire, UpdateSession(s, ip, ua, now), now)
    ensures !IsSessionExpired(sessionExpire, CreateSession(id, hash, user, ip, ua, now), now)
    ensures VerifySession(UpdateSession(s, ip, ua, now), ua)
    ensures VerifySession(CreateSession(id, hash, user, ip, ua, now), ua)
  {
  }

  /**
   * The fingerprint check ignores the IP: for every presented agent, a session
   * with another address verifies exactly as before, and renewing from another
   * address with the same agent changes no verdict.
   */
  lemma VerifyIgnoresIp(s: Session, ip: string, ua: string, now: Time)
    ensures VerifySession(s.(ip := ip), ua) == VerifySession(s, ua)
    ensures VerifySession(UpdateSession(s, ip, s.userAgent, now), ua) == VerifySession(s, ua)
  {
  }
}
