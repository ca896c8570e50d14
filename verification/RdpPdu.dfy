/** RDP PDUs on the operator's side: TPKT framing, MCS Send Data, and the rewrite
    that puts the vault credential into the Client Info PDU. */
module RdpPdu {
  import opened Bytes
  import opened Streams
  import opened Utf16

  const TPKT_HEADER_LEN := 4
  const X224_DATA: byte := 0xF0
  const SEND_DATA_REQUEST := 25
  const LENGTH_POS := 13       // TPKT(4) X.224(3) choice(1) initiator(2) channel(2) priority(1)
  const SECURITY_LEN := 4
  const FIXED_LEN := 18

  // ------------------------------------------------------------------- TPKT

  datatype Framed = Framed(pdu: bytes, rest: bytes) | NoFrame

  function Tpkt(s: bytes): Framed {
    if |s| < TPKT_HEADER_LEN || s[0] != 3 then NoFrame else
      var n := U16BE(s[2..4]);
      if n < TPKT_HEADER_LEN || n > |s| then NoFrame else Framed(s[..n], s[n..])
  }

  /** readTPKT. The 16 MiB bound cannot be reached by a 16-bit length. */
  method ReadTpkt(r: Reader) returns (ok: bool, pdu: bytes)
    modifies r
    ensures ok == Tpkt(old(r.rest)).Framed?
    ensures ok ==> Tpkt(old(r.rest)) == Framed(pdu, r.rest)
  {
    hide U16BE;
    ghost var s := r.rest;
    ok, pdu := false, [];
    var got, hdr := r.ReadFull(TPKT_HEADER_LEN);
    if got != Complete || hdr[0] != 3 { return; }
    assert hdr[2..4] == s[2..4];
    var n := U16BE(hdr[2..4]);
    if n < TPKT_HEADER_LEN { return; }
    var read, body := r.ReadFull(n - TPKT_HEADER_LEN);
    if read != Complete { return; }
    assert hdr + body == s[..n] && r.rest == s[n..];
    ok, pdu := true, hdr + body;
  }

  // -------------------------------------------------- PER length determinant

  datatype Per = Per(length: nat, consumed: nat) | NoPer

  function PerRead(b: bytes): (p: Per)
    ensures p.Per? ==> 1 <= p.consumed <= |b| && p.consumed <= 2
  {
    if |b| < 1 then NoPer
    else if b[0] < 0x80 then Per(b[0], 1)
    else if |b| < 2 then NoPer
    else Per(b[0] as int % 0x80 * 256 + b[1] as int, 2)
  }

  function PerWrite(n: nat): (b: bytes)
    ensures 1 <= |b| <= 2
  {
    if n < 0x80 then [n] else [0x80 + n / 256 % 0x80, n % 256]
  }

  /** The determinant carries fifteen bits: it reads back the length written
      exactly when the length is below 0x8000. */
  lemma PerRoundTrip(n: nat, rest: bytes)
    ensures PerRead(PerWrite(n) + rest) == Per(if n < 0x80 then n else n % 0x8000, |PerWrite(n)|)
    ensures PerRead(PerWrite(n) + rest).length == n <==> n < 0x8000
  {
    LowFifteenBits(n);
  }

  lemma LowFifteenBits(n: nat)
    ensures n / 256 % 0x80 * 256 + n % 256 == n % 0x8000
  {
    var q := n / 256;
    assert n == 0x8000 * (q / 0x80) + (q % 0x80 * 256 + n % 256);
  }

  // -------------------------------------------------------------- Send Data

  datatype SendData = SendData(channel: nat, userData: bytes) | NotSendData

  /** parseSendData. */
  function ParseSendData(pdu: bytes, want: nat): SendData {
    if |pdu| < LENGTH_POS || pdu[5] != X224_DATA || pdu[7] as int / 4 != want then NotSendData else
    match PerRead(pdu[LENGTH_POS..])
    case NoPer => NotSendData
    case Per(n, consumed) =>
      var p := LENGTH_POS + consumed;
      if p + n > |pdu| then NotSendData else SendData(U16BE(pdu[10..12]), pdu[p..p + n])
  }

  /** SEC_INFO_PKT in the security header. */
  predicate IsClientInfo(userData: bytes) {
    |userData| >= 4 && U16LE(userData[..2]) / 0x40 % 2 == 1
  }

  // ------------------------------------------------------------ Client Info

  /** A Client Info PDU's user data, cut at its variable-length strings; each
      string includes its two-byte terminator. */
  datatype Info = Info(security: bytes, head: bytes, otherLengths: bytes,
                       domain: bytes, user: bytes, password: bytes, tail: bytes)

  datatype Parsed = Ok(info: Info) | TooShort | NotUnicode | Truncated

  function ParseInfo(userData: bytes): Parsed {
    if |userData| < SECURITY_LEN + FIXED_LEN then TooShort else
      var info := userData[SECURITY_LEN..];
      if U32LE(info[4..8]) / 0x10 % 2 == 0 then NotUnicode else
        var domEnd := FIXED_LEN + U16LE(info[8..10]) + 2;
        var userEnd := domEnd + U16LE(info[10..12]) + 2;
        var passEnd := userEnd + U16LE(info[12..14]) + 2;
        if passEnd > |info| then Truncated
        else Ok(Info(userData[..SECURITY_LEN], info[..8], info[14..FIXED_LEN],
                     info[FIXED_LEN..domEnd], info[domEnd..userEnd], info[userEnd..passEnd], info[passEnd..]))
  }

  datatype Credential = Credential(domain: Text, user: Text, password: Text)

  /** utf16zTerminated. */
  function Terminated(t: Text): (b: bytes)
    ensures |b| >= 2
  {
    EncodeLE(t) + [0, 0]
  }

  function Replaced(info: Info, c: Credential): Info {
    info.(domain := Terminated(c.domain), user := Terminated(c.user), password := Terminated(c.password))
  }

  /** The fixed part of TS_INFO_PACKET, each length taken from its string. */
  function FixedPart(info: Info): bytes
    requires |info.domain| >= 2 && |info.user| >= 2 && |info.password| >= 2
  {
    info.head + PutU16LE(|info.domain| - 2) + PutU16LE(|info.user| - 2) + PutU16LE(|info.password| - 2) +
    info.otherLengths
  }

  function Strings(info: Info): bytes {
    info.domain + (info.user + (info.password + info.tail))
  }

  /** The user data that spells out an Info. */
  function Spell(info: Info): bytes
    requires |info.domain| >= 2 && |info.user| >= 2 && |info.password| >= 2
  {
    info.security + (FixedPart(info) + Strings(info))
  }

  /** The PDU around new user data: same headers, fresh PER and TPKT lengths. */
  function Rewrap(pdu: bytes, userData: bytes): bytes
    requires |pdu| >= LENGTH_POS
  {
    var body := pdu[4..LENGTH_POS] + PerWrite(|userData|) + userData;
    pdu[..2] + PutU16BE(TPKT_HEADER_LEN + |body|) + body
  }

  datatype Injected = Pdu(pdu: bytes) | Refused

  function Inject(pdu: bytes, userData: bytes, c: Credential): Injected
    requires |pdu| >= LENGTH_POS
  {
    match ParseInfo(userData)
    case Ok(info) => Pdu(Rewrap(pdu, Spell(Replaced(info, c))))
    case _ => Refused
  }

  /** injectClientInfoCredentials, on a PDU parseSendData has accepted. */
  method InjectClientInfo(pdu: bytes, userData: bytes, c: Credential) returns (r: Injected)
    requires ParseSendData(pdu, SEND_DATA_REQUEST).SendData?
    ensures r == Inject(pdu, userData, c)
  {
    hide U16LE, U32LE, U16BE, PutU16LE, PutU16BE, PerWrite, Terminated;
    if |userData| < SECURITY_LEN + FIXED_LEN { return Refused; }
    var info := userData[SECURITY_LEN..];
    if U32LE(info[4..8]) / 0x10 % 2 == 0 { return Refused; }
    var domEnd := FIXED_LEN + U16LE(info[8..10]) + 2;
    var userEnd := domEnd + U16LE(info[10..12]) + 2;
    var passEnd := userEnd + U16LE(info[12..14]) + 2;
    if passEnd > |info| { return Refused; }
    var newUserData := RebuildUserData(userData, passEnd, c);
    var out := pdu[..LENGTH_POS] + PerWrite(|newUserData|) + newUserData;
    var total := PutU16BE(|out|);
    out := out[2 := total[0]][3 := total[1]];
    assert out == Rewrap(pdu, newUserData);
    r := Pdu(out);
  }

  /** The packet rebuilt from its fixed header, the new strings and the old tail. */
  method RebuildUserData(userData: bytes, passEnd: nat, c: Credential) returns (newUserData: bytes)
    requires ParseInfo(userData).Ok?
    requires passEnd <= |userData| - SECURITY_LEN
    requires userData[SECURITY_LEN..][passEnd..] == ParseInfo(userData).info.tail
    ensures var info := Replaced(ParseInfo(userData).info, c); newUserData == Spell(info)
  {
    hide U16LE, U32LE, PutU16LE, Terminated;
    ghost var after := Replaced(ParseInfo(userData).info, c);
    var info := userData[SECURITY_LEN..];
    var newDomain, newUser, newPass := Terminated(c.domain), Terminated(c.user), Terminated(c.password);
    var nb := FixedHeader(info, |newDomain| - 2, |newUser| - 2, |newPass| - 2);
    ghost var fixed := nb;
    assert fixed == FixedPart(after);
    nb := nb + newDomain;
    nb := nb + newUser;
    nb := nb + newPass;
    nb := nb + info[passEnd..];
    assert nb == fixed + Strings(after);
    newUserData := userData[..SECURITY_LEN] + nb;
  }

  /** The fixed part of TS_INFO_PACKET with its three string lengths overwritten. */
  method FixedHeader(info: bytes, cbDomain: nat, cbUser: nat, cbPass: nat) returns (nb: bytes)
    requires |info| >= FIXED_LEN
    ensures nb == info[..8] + PutU16LE(cbDomain) + PutU16LE(cbUser) + PutU16LE(cbPass) + info[14..FIXED_LEN]
  {
    hide PutU16LE;
    var a := new byte[FIXED_LEN];
    forall i | 0 <= i < FIXED_LEN { a[i] := info[i]; }
    var d, u, p := PutU16LE(cbDomain), PutU16LE(cbUser), PutU16LE(cbPass);
    a[8], a[9] := d[0], d[1];
    a[10], a[11] := u[0], u[1];
    a[12], a[13] := p[0], p[1];
    nb := a[..];
  }

  // ---------------------------------------------------------------- theorems

  /** Parsed strings keep their own lengths, so spelling them is well defined. */
  predicate WellFormed(info: Info) {
    && |info.security| == 4 && |info.head| == 8 && |info.otherLengths| == 4
    && 2 <= |info.domain| < 0x1_0002 && 2 <= |info.user| < 0x1_0002 && 2 <= |info.password| < 0x1_0002
    && U32LE(info.head[4..8]) / 0x10 % 2 == 1
  }

  lemma ParsedIsWellFormed(userData: bytes)
    requires ParseInfo(userData).Ok?
    ensures WellFormed(ParseInfo(userData).info)
  {
    hide U16LE, U32LE;
    var info := userData[SECURITY_LEN..];
    assert info[..8][4..8] == info[4..8];
  }

  /** Spelling out a well-formed Info and parsing it gives the Info back. */
  lemma SpellRoundTrip(info: Info)
    requires WellFormed(info)
    ensures ParseInfo(Spell(info)) == Ok(info)
  {
    hide U16LE, U32LE, PutU16LE, Spell;
    U16LERoundTrip(|info.domain| - 2);
    U16LERoundTrip(|info.user| - 2);
    U16LERoundTrip(|info.password| - 2);
    SpelledSlices(info);
  }

  lemma SpelledSlices(info: Info)
    requires WellFormed(info)
    ensures |Spell(info)| >= SECURITY_LEN + FIXED_LEN && Spell(info)[..SECURITY_LEN] == info.security
    ensures var t := Spell(info)[SECURITY_LEN..];
            && t[..8] == info.head && t[4..8] == info.head[4..8] && t[14..FIXED_LEN] == info.otherLengths
            && t[8..10] == PutU16LE(|info.domain| - 2) && t[10..12] == PutU16LE(|info.user| - 2)
            && t[12..14] == PutU16LE(|info.password| - 2)
    ensures var t := Spell(info)[SECURITY_LEN..];
            var d := FIXED_LEN + |info.domain|;
            var u := d + |info.user|;
            var p := u + |info.password|;
            && p + |info.tail| == |t|
            && t[FIXED_LEN..d] == info.domain && t[d..u] == info.user && t[u..p] == info.password && t[p..] == info.tail
  {
    hide U32LE, PutU16LE, FixedPart, Strings;
    var s, fixed := Spell(info), FixedPart(info);
    var t := s[SECURITY_LEN..];
    FixedSlices(info);
    StringSlices(info, fixed);
    assert t == fixed + Strings(info);
    assert t[..8] == fixed[..8] && t[4..8] == fixed[..8][4..8];
    assert t[8..10] == fixed[8..10] && t[10..12] == fixed[10..12] && t[12..14] == fixed[12..14];
    assert t[14..FIXED_LEN] == fixed[14..FIXED_LEN];
  }

  lemma FixedSlices(info: Info)
    requires WellFormed(info)
    ensures var f := FixedPart(info);
            && |f| == FIXED_LEN && f[..8] == info.head && f[14..FIXED_LEN] == info.otherLengths
            && f[8..10] == PutU16LE(|info.domain| - 2) && f[10..12] == PutU16LE(|info.user| - 2)
            && f[12..14] == PutU16LE(|info.password| - 2)
  {
    hide U32LE, PutU16LE;
  }

  lemma StringSlices(info: Info, fixed: bytes)
    requires |fixed| == FIXED_LEN
    ensures var t := fixed + Strings(info);
            var d := FIXED_LEN + |info.domain|;
            var u := d + |info.user|;
            var p := u + |info.password|;
            && p + |info.tail| == |t|
            && t[FIXED_LEN..d] == info.domain && t[d..u] == info.user && t[u..p] == info.password && t[p..] == info.tail
  {
  }

  /** A rewrapped PDU parses to the same channel and the new user data exactly
      when the user data is below 0x8000 bytes. */
  lemma RewrapParses(pdu: bytes, userData: bytes, want: nat)
    requires |pdu| >= LENGTH_POS && ParseSendData(pdu, want).SendData?
    ensures (ParseSendData(Rewrap(pdu, userData), want) == SendData(ParseSendData(pdu, want).channel, userData))
            <==> |userData| < 0x8000
    ensures var out := Rewrap(pdu, userData);
            |out| >= LENGTH_POS && out[..2] == pdu[..2] && out[4..LENGTH_POS] == pdu[4..LENGTH_POS]
  {
    hide PutU16BE, U16BE, PerWrite, PerRead;
    var out, per := Rewrap(pdu, userData), PerWrite(|userData|);
    assert out[..2] == pdu[..2] && out[4..LENGTH_POS] == pdu[4..LENGTH_POS];
    assert out[LENGTH_POS..] == per + userData;
    assert out[10..12] == out[4..LENGTH_POS][6..8] == pdu[4..LENGTH_POS][6..8] == pdu[10..12];
    assert out[5] == out[4..LENGTH_POS][1] == pdu[5] && out[7] == out[4..LENGTH_POS][3] == pdu[7];
    PerRoundTrip(|userData|, userData);
    var p := LENGTH_POS + |per|;
    assert out[p..] == userData;
    if |userData| < 0x8000 {
      assert out[p..p + |userData|] == userData;
    }
  }

  /** At any length, what a rewrapped PDU parses to is on the original's channel. */
  lemma RewrapKeepsChannel(pdu: bytes, userData: bytes, want: nat)
    requires |pdu| >= LENGTH_POS && ParseSendData(pdu, want).SendData?
    requires ParseSendData(Rewrap(pdu, userData), want).SendData?
    ensures ParseSendData(Rewrap(pdu, userData), want).channel == ParseSendData(pdu, want).channel
  {
    hide Rewrap, PerRead, U16BE;
    RewrapParses(pdu, userData, want);
    ChannelField(pdu, Rewrap(pdu, userData));
  }

  lemma ChannelField(a: bytes, b: bytes)
    requires |a| >= LENGTH_POS && |b| >= LENGTH_POS && a[4..LENGTH_POS] == b[4..LENGTH_POS]
    ensures a[10..12] == b[10..12]
  {
    assert a[10..12] == a[4..LENGTH_POS][6..8] && b[10..12] == b[4..LENGTH_POS][6..8];
  }

  /** Its TPKT length covers exactly the PDU, so a peer reads it back whole. */
  lemma RewrapIsFramed(pdu: bytes, userData: bytes, rest: bytes)
    requires |pdu| >= LENGTH_POS && pdu[0] == 3 && |userData| < 0x8000
    ensures Tpkt(Rewrap(pdu, userData) + rest) == Framed(Rewrap(pdu, userData), rest)
  {
    hide PutU16BE, U16BE, PerWrite;
    var out := Rewrap(pdu, userData);
    var s := out + rest;
    U16BERoundTrip(|out|);
    assert s[0] == pdu[..2][0];
    assert s[2..4] == PutU16BE(|out|);
    assert s[..|out|] == out && s[|out|..] == rest;
  }

  /** Injection into any Unicode Client Info PDU whose new user data is below
      0x8000 bytes changes the three credential strings and nothing else: same
      channel, security header, flags, other lengths and tail, with consistent
      framing around them. At 0x8000 bytes and above the PDU no longer parses to
      its own user data. */
  lemma InjectionReplacesOnlyCredentials(pdu: bytes, c: Credential, rest: bytes)
    requires ParseSendData(pdu, SEND_DATA_REQUEST).SendData?
    requires ParseInfo(ParseSendData(pdu, SEND_DATA_REQUEST).userData).Ok?
    ensures var sent := ParseSendData(pdu, SEND_DATA_REQUEST);
            var before := ParseInfo(sent.userData).info;
            && WellFormed(before)
            && Inject(pdu, sent.userData, c).Pdu?
            && var out, data := Inject(pdu, sent.userData, c).pdu, Spell(Replaced(before, c));
               && (ParseSendData(out, SEND_DATA_REQUEST) == SendData(sent.channel, data) <==> |data| < 0x8000)
               && (|data| < 0x8000 ==>
                     && ParseInfo(data) == Ok(Replaced(before, c))
                     && IsClientInfo(data) == IsClientInfo(sent.userData)
                     && (pdu[0] == 3 ==> Tpkt(out + rest) == Framed(out, rest)))
  {
    hide ParseSendData, ParseInfo, Rewrap, Terminated, Tpkt, Spell;
    var sent := ParseSendData(pdu, SEND_DATA_REQUEST);
    SendDataHasHeader(pdu, SEND_DATA_REQUEST);
    ParsedIsWellFormed(sent.userData);
    var before := ParseInfo(sent.userData).info;
    var data := Spell(Replaced(before, c));
    RewrapParses(pdu, data, SEND_DATA_REQUEST);
    if |data| < 0x8000 {
      SpelledLengths(Replaced(before, c));
      SpellRoundTrip(Replaced(before, c));
      SecurityHeaderKept(sent.userData, c);
      if pdu[0] == 3 { RewrapIsFramed(pdu, data, rest); }
    }
  }

  lemma SendDataHasHeader(pdu: bytes, want: nat)
    requires ParseSendData(pdu, want).SendData?
    ensures |pdu| >= LENGTH_POS
  {
  }

  lemma SpelledLengths(info: Info)
    requires |info.domain| >= 2 && |info.user| >= 2 && |info.password| >= 2
    ensures |Spell(info)| >= |info.domain| + |info.user| + |info.password|
  {
    hide PutU16LE;
  }

  lemma SecurityHeaderKept(userData: bytes, c: Credential)
    requires ParseInfo(userData).Ok?
    ensures var before := ParseInfo(userData).info;
            |before.domain| >= 2 && |before.user| >= 2 && |before.password| >= 2 &&
            IsClientInfo(Spell(Replaced(before, c))) == IsClientInfo(userData)
  {
    hide U16LE, U32LE, PutU16LE, Terminated;
    var before := ParseInfo(userData).info;
    var data := Spell(Replaced(before, c));
    assert data[..2] == before.security[..2] == userData[..2];
  }
}
