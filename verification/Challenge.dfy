/**
 * The stateless challenge: print, parse, freshness window and binding to the
 * key. The HMAC under the server's secret and the base64 check are parameters.
 */
module Challenge {
  import opened Calendar
  import opened Domain
  import opened Bytes

  /** Nanoseconds since 1970. */
  type Instant = int

  const VERSION := "v1"
  const MAX_CLOCK_SKEW: int := 5 * SECOND
  const MAX_INT64: int := 0x7fff_ffff_ffff_ffff
  const MIN_INT64: int := -0x8000_0000_0000_0000

  // ---------- decimal and hexadecimal texts ----------

  function Digit(d: int): char
    requires 0 <= d < 16
  {
    "0123456789abcdef"[d]
  }

  /** The value of a digit in base 16, in either case. */
  function DigitValue(c: char): Option<int> {
    if '0' <= c <= '9' then Some(c as int - '0' as int)
    else if 'a' <= c <= 'f' then Some(c as int - 'a' as int + 10)
    else if 'A' <= c <= 'F' then Some(c as int - 'A' as int + 10)
    else None
  }

  lemma DigitInverse(d: int)
    requires 0 <= d < 16
    ensures DigitValue(Digit(d)) == Some(d) && Digit(d) != '.'
    ensures d < 10 ==> '0' <= Digit(d) <= '9'
  {
  }

  function Digits(n: nat): string {
    if n < 10 then [Digit(n)] else Digits(n / 10) + [Digit(n % 10)]
  }

  /** strconv.FormatInt, base 10. */
  function FormatInt(n: int): string {
    if n < 0 then "-" + Digits(-n) else Digits(n)
  }

  function ParseDigits(s: string): Option<nat>
    decreases |s|
  {
    if s == "" then None
    else
      var n := |s| - 1;
      var last := if '0' <= s[n] <= '9' then Some(s[n] as int - '0' as int) else None;
      if last.None? then None
      else if n == 0 then Some(last.value)
      else
        var front := ParseDigits(s[..n]);
        if front.None? then None else Some(10 * front.value + last.value)
  }

  /** strconv.ParseInt, base 10, 64 bits: an optional sign, digits, and a value in range. */
  function ParseInt(s: string): Option<int> {
    var signed := s != "" && (s[0] == '+' || s[0] == '-');
    var digits := ParseDigits(if signed then s[1..] else s);
    if digits.None? then None
    else
      var n: int := if signed && s[0] == '-' then -(digits.value as int) else digits.value;
      if MIN_INT64 <= n <= MAX_INT64 then Some(n) else None
  }

  lemma {:induction false} ParseDigitsInverse(n: nat)
    ensures Digits(n) != "" && ParseDigits(Digits(n)) == Some(n)
    ensures '0' <= Digits(n)[0] <= '9' && '.' !in Digits(n)
  {
    if n < 10 {
      DigitInverse(n);
    } else {
      ParseDigitsInverse(n / 10);
      DigitInverse(n % 10);
      var s := Digits(n);
      assert s[..|s| - 1] == Digits(n / 10);
      assert n == 10 * (n / 10) + n % 10;
    }
  }

  lemma ParseIntInverse(n: int)
    requires MIN_INT64 <= n <= MAX_INT64
    ensures ParseInt(FormatInt(n)) == Some(n) && '.' !in FormatInt(n)
  {
    hide Digits; hide ParseDigits;
    if n < 0 {
      ParseDigitsInverse(-n);
      assert ("-" + Digits(-n))[1..] == Digits(-n);
    } else {
      ParseDigitsInverse(n);
    }
  }

  function HexPair(b: byte): string {
    [Digit(b / 16), Digit(b % 16)]
  }

  /** hex.EncodeToString */
  function HexEncode(data: seq<byte>): string
    decreases |data|
  {
    if data == [] then ""
    else
      var n := |data| - 1;
      HexEncode(data[..n]) + HexPair(data[n])
  }

  /** hex.DecodeString */
  function HexDecode(s: string): Option<seq<byte>>
    decreases |s|
  {
    if s == "" then Some([])
    else if |s| == 1 then None
    else
      var n := |s| - 2;
      var front := HexDecode(s[..n]);
      var high, low := DigitValue(s[n]), DigitValue(s[n + 1]);
      if front.None? || high.None? || low.None? then None
      else
        DigitBounds(s[n]);
        DigitBounds(s[n + 1]);
        Some(front.value + [16 * high.value + low.value])
  }

  lemma DigitBounds(c: char)
    ensures DigitValue(c).Some? ==> 0 <= DigitValue(c).value < 16
  {
  }

  lemma HexDecodeStep(s: string)
    requires |s| >= 2
    ensures var n := |s| - 2;
            var front, high, low := HexDecode(s[..n]), DigitValue(s[n]), DigitValue(s[n + 1]);
            front.Some? && high.Some? && low.Some? && 0 <= high.value < 16 && 0 <= low.value < 16 ==>
              HexDecode(s) == Some(front.value + [16 * high.value + low.value])
  {
  }

  lemma HexEncodeStep(front: seq<byte>, b: byte)
    ensures HexEncode(front + [b]) == HexEncode(front) + HexPair(b)
    ensures HexEncode([]) == "" && HexDecode("") == Some([])
  {
    hide HexPair;
    assert (front + [b])[..|front|] == front;
  }

  lemma {:induction false} HexInverse(data: seq<byte>)
    ensures HexDecode(HexEncode(data)) == Some(data) && '.' !in HexEncode(data)
    decreases |data|
  {
    hide HexDecode; hide HexEncode; hide HexPair;
    if data == [] {
      HexEncodeStep([], 0);
    } else {
      var front, b := data[..|data| - 1], data[|data| - 1];
      assert data == front + [b];
      HexInverse(front);
      HexEncodeStep(front, b);
      HexDecodePair(HexEncode(front), b);
    }
  }

  lemma HexDecodePair(front: string, b: byte)
    requires HexDecode(front).Some?
    ensures HexDecode(front + HexPair(b)) == Some(HexDecode(front).value + [b]) && '.' !in HexPair(b)
  {
    hide HexDecode; hide Digit; hide DigitValue;
    var n: int := b;
    DigitInverse(n / 16);
    DigitInverse(n % 16);
    assert n == 16 * (n / 16) + n % 16;
    var s := front + HexPair(b);
    assert s[..|front|] == front && s[|front|] == Digit(n / 16) && s[|front| + 1] == Digit(n % 16);
    HexDecodeStep(s);
  }

  // ---------- exactly the numerals ----------

  function Zeros(z: nat): string {
    seq(z, _ => '0')
  }

  lemma {:induction false} ZerosParse(z: nat)
    ensures z > 0 ==> ParseDigits(Zeros(z)) == Some(0)
  {
    if z > 1 {
      ZerosParse(z - 1);
      assert Zeros(z)[..z - 1] == Zeros(z - 1);
    }
  }

  lemma DigitOf(c: char)
    requires '0' <= c <= '9'
    ensures Digit(c as int - '0' as int) == c && c as int - '0' as int < 10
  {
  }

  /** Leading zeros are read over. */
  lemma {:induction false} PaddedParse(z: nat, n: nat)
    ensures ParseDigits(Zeros(z) + Digits(n)) == Some(n)
    decreases n
  {
    hide ParseDigits; hide Digits; hide Zeros; hide Digit;
    DigitsStep(n);
    if n < 10 {
      ZerosParse(z);
      ParseOneMore(Zeros(z), n);
      assert z == 0 ==> Zeros(z) == "" by { NoZeros(); }
    } else {
      PaddedParse(z, n / 10);
      ParseDigitsInverse(n / 10);
      ParseOneMore(Zeros(z) + Digits(n / 10), n % 10);
      assert Zeros(z) + Digits(n) == Zeros(z) + Digits(n / 10) + [Digit(n % 10)];
      assert n == 10 * (n / 10) + n % 10;
    }
  }

  lemma PaddedStarts(z: nat, n: nat)
    ensures var s := Zeros(z) + Digits(n); s != "" && '0' <= s[0] <= '9'
  {
    hide Digits;
    ParseDigitsInverse(n);
  }

  lemma NoZeros()
    ensures Zeros(0) == ""
  {
  }

  lemma DigitsStep(n: nat)
    ensures Digits(n) == if n < 10 then [Digit(n)] else Digits(n / 10) + [Digit(n % 10)]
  {
  }

  lemma ParseOneMore(front: string, d: int)
    requires 0 <= d < 10
    ensures front == "" ==> ParseDigits(front + [Digit(d)]) == Some(d)
    ensures front != "" && ParseDigits(front).Some? ==>
              ParseDigits(front + [Digit(d)]) == Some(10 * ParseDigits(front).value + d)
  {
    DigitInverse(d);
    assert (front + [Digit(d)])[..|front|] == front;
  }

  lemma {:induction false} ParsedIsPadded(s: string, n: nat) returns (z: nat)
    requires ParseDigits(s) == Some(n)
    ensures s == Zeros(z) + Digits(n)
    decreases |s|
  {
    var k := |s| - 1;
    var last := s[k] as int - '0' as int;
    DigitOf(s[k]);
    assert s == s[..k] + [s[k]];
    if k == 0 {
      z := 0;
    } else {
      var front: nat := ParseDigits(s[..k]).value;
      z := ParsedIsPadded(s[..k], front);
      assert n == 10 * front + last && n / 10 == front && n % 10 == last;
      if front == 0 {
        assert Digits(0) == ['0'];
        assert Zeros(z) + ['0'] == Zeros(z + 1);
        z := z + 1;
      }
    }
  }

  /** A decimal numeral of n: a sign, or none for what is not negative, then zeros, then the digits. */
  predicate Numeral(s: string, n: int, sign: string, z: nat) {
    && sign in {"", "+", "-"} && (sign == "-" ==> n <= 0) && (sign != "-" ==> n >= 0)
    && s == sign + (Zeros(z) + Digits(if n < 0 then -n else n))
  }

  /** What strconv.ParseInt reads as n: exactly the numerals of n, if n has 64 bits. */
  lemma ParseIntExactly(s: string, n: int)
    ensures ParseInt(s) == Some(n) <==>
              MIN_INT64 <= n <= MAX_INT64 && exists sign, z :: Numeral(s, n, sign, z)
  {
    hide ParseDigits; hide Digits; hide Zeros;
    var m: nat := if n < 0 then -n else n;
    if ParseInt(s) == Some(n) {
      var signed := s != "" && (s[0] == '+' || s[0] == '-');
      var sign := if signed then s[..1] else "";
      var digits := if signed then s[1..] else s;
      assert s == sign + digits;
      var z := ParsedIsPadded(digits, m);
      if signed {
        assert s[..1] == [s[0]];
      }
      assert Numeral(s, n, sign, z);
    }
    if sign, z :| Numeral(s, n, sign, z) {
      var digits := Zeros(z) + Digits(m);
      PaddedParse(z, m);
      PaddedStarts(z, m);
      assert sign != "" ==> s[1..] == digits && s[0] == sign[0];
      assert sign == "" ==> s == digits;
    }
  }

  function LowerDigit(c: char): char {
    if 'A' <= c <= 'F' then (c as int + 32) as char else c
  }

  function Lowered(s: string): (r: string)
    ensures |r| == |s| && forall i :: 0 <= i < |s| ==> r[i] == LowerDigit(s[i])
  {
    seq(|s|, i requires 0 <= i < |s| => LowerDigit(s[i]))
  }

  lemma DigitValueExactly(c: char, d: int)
    ensures DigitValue(c) == Some(d) <==> 0 <= d < 16 && LowerDigit(c) == Digit(d)
  {
  }

  /** What hex.DecodeString reads as the bytes: exactly their encoding, with letters of either case. */
  lemma {:induction false} HexDecodeExactly(s: string, data: seq<byte>)
    ensures HexDecode(s) == Some(data) <==> Lowered(s) == HexEncode(data)
    decreases |data|
  {
    hide DigitValue; hide Digit; hide LowerDigit;
    HexSize(data);
    if |s| >= 2 && data != [] {
      var front, b: int := data[..|data| - 1], data[|data| - 1];
      HexDecodeExactly(s[..|s| - 2], front);
      HexSize(front);
      HexDecodeLast(s, front, b);
      DigitValueExactly(s[|s| - 2], b / 16);
      DigitValueExactly(s[|s| - 1], b % 16);
      LoweredLast(s, HexEncode(front), [Digit(b / 16), Digit(b % 16)]);
      assert data == front + [b];
    } else if |s| >= 2 {
      HexDecodeStep(s);
    }
  }

  lemma {:induction false} HexSize(data: seq<byte>)
    ensures |HexEncode(data)| == 2 * |data|
    decreases |data|
  {
    if data != [] {
      HexSize(data[..|data| - 1]);
    }
  }

  lemma HexDecodeLast(s: string, front: seq<byte>, b: byte)
    requires |s| >= 2
    ensures HexDecode(s) == Some(front + [b]) <==>
              && HexDecode(s[..|s| - 2]) == Some(front)
              && DigitValue(s[|s| - 2]) == Some(b / 16) && DigitValue(s[|s| - 1]) == Some(b % 16)
  {
    hide DigitValue;
    var read, high, low := HexDecode(s[..|s| - 2]), DigitValue(s[|s| - 2]), DigitValue(s[|s| - 1]);
    DigitBounds(s[|s| - 2]);
    DigitBounds(s[|s| - 1]);
    if read.Some? && high.Some? && low.Some? {
      HexDecodeStep(s);
      NibblesOf(high.value, low.value, b);
      hide HexDecode;
      SameLast(read.value, 16 * high.value + low.value, front, b);
    }
  }

  lemma NibblesOf(high: int, low: int, b: byte)
    requires 0 <= high < 16 && 0 <= low < 16
    ensures 16 * high + low == b as int <==> high == b / 16 && low == b % 16
  {
  }

  lemma SameLast(a: seq<byte>, x: byte, b: seq<byte>, y: byte)
    ensures a + [x] == b + [y] <==> a == b && x == y
  {
    if a + [x] == b + [y] {
      assert (a + [x])[..|a|] == a && (b + [y])[..|b|] == b;
      assert (a + [x])[|a|] == x && (b + [y])[|b|] == y;
    }
  }

  lemma LoweredLast(s: string, front: string, last: string)
    requires |s| >= 2 && |last| == 2
    ensures Lowered(s) == front + last <==>
              && Lowered(s[..|s| - 2]) == front
              && LowerDigit(s[|s| - 2]) == last[0] && LowerDigit(s[|s| - 1]) == last[1]
  {
    hide LowerDigit;
    var n := |s| - 2;
    assert Lowered(s[..n]) == Lowered(s)[..n];
    assert Lowered(s) == Lowered(s)[..n] + [Lowered(s)[n], Lowered(s)[n + 1]];
    if Lowered(s) == front + last {
      assert |front| == n && Lowered(s)[..n] == front && Lowered(s)[n] == last[0] && Lowered(s)[n + 1] == last[1];
    } else if Lowered(s[..n]) == front {
      assert last == [last[0], last[1]];
    }
  }

  // ---------- the dots ----------

  /** The text before the first dot, and after it. */
  function CutDot(s: string): Option<(string, string)>
    ensures CutDot(s).Some? ==> '.' !in CutDot(s).value.0 && s == CutDot(s).value.0 + "." + CutDot(s).value.1
  {
    if s == "" then None
    else if s[0] == '.' then Some(("", s[1..]))
    else
      var rest := CutDot(s[1..]);
      if rest.None? then None else Some(([s[0]] + rest.value.0, rest.value.1))
  }

  lemma {:induction false} CutDotInverse(front: string, rest: string)
    requires '.' !in front
    ensures CutDot(front + "." + rest) == Some((front, rest))
  {
    var s := front + "." + rest;
    if front == "" {
      assert s[1..] == rest;
    } else {
      assert s[1..] == front[1..] + "." + rest;
      CutDotInverse(front[1..], rest);
      assert s[0] == front[0] && s[0] in front;
      assert [s[0]] + front[1..] == front;
    }
  }

  /** A challenge text: version, time, nonce and MAC. */
  datatype Parts = Parts(version: string, time: string, nonce: string, mac: string)

  function Join(p: Parts): string {
    p.version + "." + (p.time + "." + (p.nonce + "." + p.mac))
  }

  /** strings.SplitN(challenge, ".", 4), when it gives four parts. */
  function Split(s: string): Option<Parts> {
    var a := CutDot(s);
    if a.None? then None
    else
      var b := CutDot(a.value.1);
      if b.None? then None
      else
        var c := CutDot(b.value.1);
        if c.None? then None else Some(Parts(a.value.0, b.value.0, c.value.0, c.value.1))
  }

  predicate Dotless(p: Parts) {
    '.' !in p.version && '.' !in p.time && '.' !in p.nonce
  }

  /** Splitting undoes joining, and only what was joined is split. */
  lemma SplitInvertsJoin(s: string, p: Parts)
    ensures Split(s) == Some(p) <==> s == Join(p) && Dotless(p)
  {
    if s == Join(p) && Dotless(p) {
      CutDotInverse(p.version, p.time + "." + (p.nonce + "." + p.mac));
      CutDotInverse(p.time, p.nonce + "." + p.mac);
      CutDotInverse(p.nonce, p.mac);
    }
  }

  // ---------- generate and verify ----------

  /** An SSH public key line, as the fields between its spaces. */
  type KeyLine = seq<string>

  /** The base64 check of the key field, and the HMAC of a text under the secret. */
  datatype Server = Server(isBase64: string -> bool, hmac: string -> seq<byte>)

  /** extractPubkeyBlob: the second field of an ssh-ed25519 line. */
  function KeyField(server: Server, line: KeyLine): Option<string> {
    if |line| < 2 || line[0] != "ssh-ed25519" || !server.isBase64(line[1]) then None else Some(line[1])
  }

  /** The text under the MAC. */
  function MacInput(time: string, nonce: string, key: string): string {
    VERSION + "." + time + "." + nonce + "." + key
  }

  /** Whole seconds, counted down to the second before. */
  function UnixSeconds(t: Instant): (s: int)
    ensures s * SECOND <= t < (s + 1) * SECOND
  {
    t / SECOND
  }

  /** GenerateChallenge; the nonce is the random bytes drawn. */
  function Generate(server: Server, line: KeyLine, nonce: seq<byte>, t: Instant): Option<string> {
    var key := KeyField(server, line);
    if key.None? then None
    else
      var time, text := FormatInt(UnixSeconds(t)), HexEncode(nonce);
      Some(VERSION + "." + time + "." + text + "." + HexEncode(server.hmac(MacInput(time, text, key.value))))
  }

  datatype Verdict = Accepted | Tampered | TooOld | TooNew

  /** verifyChallengeWithSecret */
  function Verify(server: Server, challenge: string, line: KeyLine, maxAge: int, now: Instant): Verdict {
    var parts := Split(challenge);
    if parts.None? || parts.value.version != VERSION then Tampered
    else
      var p := parts.value;
      var ts := ParseInt(p.time);
      if ts.None? then Tampered
      else if now - ts.value * SECOND > maxAge then TooOld
      else if ts.value * SECOND - now > MAX_CLOCK_SKEW then TooNew
      else
        var key := KeyField(server, line);
        if key.None? then Tampered
        else
          var mac := HexDecode(p.mac);
          if mac.None? || mac.value != server.hmac(MacInput(p.time, p.nonce, key.value)) then Tampered else Accepted
  }

  /** The MAC input determines time text, nonce text and key field. */
  lemma MacInputInjective(time1: string, nonce1: string, key1: string, time2: string, nonce2: string, key2: string)
    requires '.' !in time1 && '.' !in nonce1 && '.' !in time2 && '.' !in nonce2
    requires MacInput(time1, nonce1, key1) == MacInput(time2, nonce2, key2)
    ensures time1 == time2 && nonce1 == nonce2 && key1 == key2
  {
    var p1, p2 := Parts(VERSION, time1, nonce1, key1), Parts(VERSION, time2, nonce2, key2);
    assert Join(p1) == MacInput(time1, nonce1, key1) && Join(p2) == MacInput(time2, nonce2, key2);
    SplitInvertsJoin(Join(p1), p1);
    SplitInvertsJoin(Join(p2), p2);
  }

  lemma GeneratedParts(server: Server, line: KeyLine, nonce: seq<byte>, t: Instant)
    requires KeyField(server, line).Some? && MIN_INT64 <= UnixSeconds(t) <= MAX_INT64
    ensures var time, text := FormatInt(UnixSeconds(t)), HexEncode(nonce);
            && '.' !in time && '.' !in text && ParseInt(time) == Some(UnixSeconds(t))
            && Split(Generate(server, line, nonce, t).value)
                 == Some(Parts(VERSION, time, text,
                               HexEncode(server.hmac(MacInput(time, text, KeyField(server, line).value)))))
  {
    hide FormatInt; hide ParseInt; hide HexEncode; hide Split;
    var time, text := FormatInt(UnixSeconds(t)), HexEncode(nonce);
    var mac := HexEncode(server.hmac(MacInput(time, text, KeyField(server, line).value)));
    ParseIntInverse(UnixSeconds(t));
    HexInverse(nonce);
    var p := Parts(VERSION, time, text, mac);
    assert Join(p) == VERSION + "." + time + "." + text + "." + mac;
    SplitInvertsJoin(Join(p), p);
  }

  /** The window in which a challenge of time t is good at time now. */
  predicate InWindow(t: Instant, now: Instant, maxAge: int) {
    now - UnixSeconds(t) * SECOND <= maxAge && UnixSeconds(t) * SECOND - now <= MAX_CLOCK_SKEW
  }

  /**
   * A generated challenge verifies for every line with the same key field,
   * whatever its comment, exactly inside the window; outside it the verdict
   * names the side.
   */
  lemma RoundTrip(server: Server, line: KeyLine, nonce: seq<byte>, t: Instant, line': KeyLine, maxAge: int,
                  now: Instant)
    requires KeyField(server, line).Some? && KeyField(server, line') == KeyField(server, line)
    requires MIN_INT64 <= UnixSeconds(t) <= MAX_INT64
    ensures var verdict := Verify(server, Generate(server, line, nonce, t).value, line', maxAge, now);
            && (verdict == Accepted <==> InWindow(t, now, maxAge))
            && (verdict == TooOld <==> now - UnixSeconds(t) * SECOND > maxAge)
            && verdict != Tampered
  {
    hide Generate; hide Split; hide ParseInt; hide FormatInt; hide HexEncode; hide HexDecode;
    GeneratedParts(server, line, nonce, t);
    var time, text := FormatInt(UnixSeconds(t)), HexEncode(nonce);
    HexInverse(server.hmac(MacInput(time, text, KeyField(server, line).value)));
  }

  ghost predicate Injective(hmac: string -> seq<byte>) {
    forall a, b :: hmac(a) == hmac(b) ==> a == b
  }

  /** A challenge is bound to its key: no line with another key field is accepted, at any time. */
  lemma Bound(server: Server, line: KeyLine, nonce: seq<byte>, t: Instant, line': KeyLine, maxAge: int, now: Instant)
    requires KeyField(server, line).Some? && MIN_INT64 <= UnixSeconds(t) <= MAX_INT64
    requires Injective(server.hmac)
    requires Verify(server, Generate(server, line, nonce, t).value, line', maxAge, now) == Accepted
    ensures KeyField(server, line') == KeyField(server, line)
  {
    hide Generate; hide Split; hide ParseInt; hide FormatInt; hide HexEncode; hide HexDecode; hide MacInput;
    GeneratedParts(server, line, nonce, t);
    var time, text := FormatInt(UnixSeconds(t)), HexEncode(nonce);
    var key, key' := KeyField(server, line).value, KeyField(server, line').value;
    HexInverse(server.hmac(MacInput(time, text, key)));
    assert server.hmac(MacInput(time, text, key')) == server.hmac(MacInput(time, text, key));
    MacInputInjective(time, text, key, time, text, key');
  }

  /** The texts and the time of an acceptable challenge, for the key field of an ssh-ed25519 line. */
  ghost predicate Carries(server: Server, challenge: string, line: KeyLine, maxAge: int, now: Instant, p: Parts,
                          ts: int)
  {
    && challenge == "v1." + p.time + "." + p.nonce + "." + p.mac
    && '.' !in p.time && '.' !in p.nonce && ParseInt(p.time) == Some(ts)
    && now - ts * SECOND <= maxAge && ts * SECOND - now <= 5 * SECOND
    && |line| >= 2 && line[0] == "ssh-ed25519" && server.isBase64(line[1])
    && HexDecode(p.mac) == Some(server.hmac("v1." + p.time + "." + p.nonce + "." + line[1]))
  }

  /**
   * The accepted texts, generated here or not: exactly those that carry a time
   * inside the window and the MAC of their own time and nonce texts with the
   * key field of the line. With an injective HMAC the time and nonce of a MAC
   * cannot be exchanged either.
   */
  lemma AcceptedCarriesMac(server: Server, challenge: string, line: KeyLine, maxAge: int, now: Instant)
    ensures Verify(server, challenge, line, maxAge, now) == Accepted <==>
              exists p: Parts, ts: int :: Carries(server, challenge, line, maxAge, now, p, ts)
  {
    hide ParseInt; hide HexDecode; hide Split; hide Carries;
    if Verify(server, challenge, line, maxAge, now) == Accepted {
      var p := Split(challenge).value;
      SplitInvertsJoin(challenge, p);
      CarriedParts(server, challenge, line, maxAge, now, p, ParseInt(p.time).value);
    }
    if p, ts :| Carries(server, challenge, line, maxAge, now, p, ts) {
      var q := p.(version := VERSION);
      CarriedParts(server, challenge, line, maxAge, now, q, ts);
      CarriedAlike(server, challenge, line, maxAge, now, p, ts);
      SplitInvertsJoin(challenge, q);
    }
  }

  lemma CarriedAlike(server: Server, challenge: string, line: KeyLine, maxAge: int, now: Instant, p: Parts, ts: int)
    ensures Carries(server, challenge, line, maxAge, now, p, ts) <==>
            Carries(server, challenge, line, maxAge, now, p.(version := VERSION), ts)
  {
    hide ParseInt; hide HexDecode;
  }

  lemma CarriedParts(server: Server, challenge: string, line: KeyLine, maxAge: int, now: Instant, p: Parts, ts: int)
    requires p.version == VERSION
    ensures Carries(server, challenge, line, maxAge, now, p, ts) <==>
              && challenge == Join(p) && Dotless(p) && ParseInt(p.time) == Some(ts)
              && now - ts * SECOND <= maxAge && ts * SECOND - now <= MAX_CLOCK_SKEW
              && KeyField(server, line).Some?
              && HexDecode(p.mac) == Some(server.hmac(MacInput(p.time, p.nonce, KeyField(server, line).value)))
  {
    hide ParseInt; hide HexDecode;
    var rest := p.time + "." + p.nonce + "." + p.mac;
    assert rest == p.time + ("." + (p.nonce + ("." + p.mac)));
    assert Join(p) == "v1." + p.time + "." + p.nonce + "." + p.mac;
    if |line| >= 2 {
      assert MacInput(p.time, p.nonce, line[1]) == "v1." + p.time + "." + p.nonce + "." + line[1];
    }
  }
}
