/** The LOGIN7 message, section 2.2.6.4 of [MS-TDS]: an offset table over
    UTF-16 fields, with the password obfuscated byte by byte. */
module Login7 {
  import opened Bytes
  import opened Bits
  import opened Utf16

  const FIXED_LEN := 36
  const OFFSET_BLOCK_LEN := 58
  const DATA_START := FIXED_LEN + OFFSET_BLOCK_LEN
  const PASSWORD_POS := 44

  // ----------------------------------------------------------- obfuscation

  const MASK: byte := 0xa5

  function ObfuscateByte(b: byte): byte { SwapNibbles(XorByte(b, MASK)) }
  function ClearByte(b: byte): byte { XorByte(SwapNibbles(b), MASK) }

  lemma ByteRoundTrip(b: byte)
    ensures ClearByte(ObfuscateByte(b)) == b
  {
    hide XorByte, SwapNibbles;
    SwapTwice(XorByte(b, MASK));
    XorByteTwice(b, MASK);
  }

  function Obfuscate(s: bytes): (r: bytes)
    ensures |r| == |s|
  {
    seq(|s|, i requires 0 <= i < |s| => ObfuscateByte(s[i]))
  }

  function Clear(s: bytes): (r: bytes)
    ensures |r| == |s|
  {
    seq(|s|, i requires 0 <= i < |s| => ClearByte(s[i]))
  }

  lemma ClearInvertsObfuscate(s: bytes)
    ensures Clear(Obfuscate(s)) == s
  {
    hide ObfuscateByte, ClearByte;
    forall i | 0 <= i < |s| ensures Clear(Obfuscate(s))[i] == s[i] {
      ByteRoundTrip(s[i]);
    }
  }

  /** obfuscateTDSPassword. */
  method ObfuscatePassword(password: Text) returns (out: bytes)
    ensures out == Obfuscate(EncodeLE(password))
  {
    hide ObfuscateByte, EncodeLE;
    var raw := Utf16LEBytes(password);
    var a := new byte[|raw|];
    var i := 0;
    while i < |raw|
      invariant 0 <= i <= |raw|
      invariant forall k :: 0 <= k < i ==> a[k] == ObfuscateByte(raw[k])
    {
      a[i] := ObfuscateByte(raw[i]);
      i := i + 1;
    }
    out := a[..];
  }

  // ------------------------------------------------------------------ layout

  /** "shieldnet-pam" and "shieldnet-pam-gateway". */
  const HOST: Text := [115, 104, 105, 101, 108, 100, 110, 101, 116, 45, 112, 97, 109]
  const APP: Text := HOST + [45, 103, 97, 116, 101, 119, 97, 121]

  /** The five fields that carry data, in the order they are laid out. */
  datatype Fields = Fields(host: bytes, user: bytes, password: bytes, app: bytes, database: bytes)

  function FieldsFor(user: Text, password: Text, database: Text): Fields {
    Fields(EncodeLE(HOST), EncodeLE(user), Obfuscate(EncodeLE(password)), EncodeLE(APP), EncodeLE(database))
  }

  function Data(f: Fields): bytes { f.host + f.user + f.password + f.app + f.database }

  function UserOffset(f: Fields): nat { DATA_START + |f.host| }
  function PasswordOffset(f: Fields): nat { UserOffset(f) + |f.user| }
  function AppOffset(f: Fields): nat { PasswordOffset(f) + |f.password| }
  function DatabaseOffset(f: Fields): nat { AppOffset(f) + |f.app| }

  function OffsetLength(off: nat, count: nat): (b: bytes)
    ensures |b| == 4
  {
    PutU16LE(off) + PutU16LE(count)
  }

  const NO_FIELD: bytes := [0, 0, 0, 0]

  function OffsetBlock(f: Fields): (b: bytes)
    ensures |b| == OFFSET_BLOCK_LEN
  {
    OffsetLength(DATA_START, |f.host| / 2) +
    OffsetLength(UserOffset(f), |f.user| / 2) +
    OffsetLength(PasswordOffset(f), |f.password| / 2) +
    OffsetLength(AppOffset(f), |f.app| / 2) +
    NO_FIELD + NO_FIELD + NO_FIELD + NO_FIELD +
    OffsetLength(DatabaseOffset(f), |f.database| / 2) +
    [0, 0, 0, 0, 0, 0] + NO_FIELD + NO_FIELD + NO_FIELD + NO_FIELD
  }

  function FixedPart(total: nat): (b: bytes)
    ensures |b| == FIXED_LEN
  {
    PutU32LE(total) + PutU32LE(0x7400_0004) + PutU32LE(4096) + PutU32LE(0x0700_0000) +
    PutU32LE(0) + PutU32LE(0) + [0, 0, 0, 0] + PutU32LE(0) + PutU32LE(0)
  }

  function Message(f: Fields): bytes {
    FixedPart(DATA_START + |Data(f)|) + OffsetBlock(f) + Data(f)
  }

  /** buildLogin7. */
  method BuildLogin7(user: Text, password: Text, database: Text) returns (out: bytes)
    ensures out == Message(FieldsFor(user, password, database))
  {
    hide EncodeLE, Obfuscate, FixedPart, OffsetLength;
    var hostName := Utf16LEBytes(HOST);
    var userName := Utf16LEBytes(user);
    var passwordEnc := ObfuscatePassword(password);
    var appName := Utf16LEBytes(APP);
    var dbName := Utf16LEBytes(database);
    var data: bytes := hostName;
    var offUser := DATA_START + |data|;
    data := data + userName;
    var offPass := DATA_START + |data|;
    data := data + passwordEnc;
    var offApp := DATA_START + |data|;
    data := data + appName;
    var offDB := DATA_START + |data|;
    data := data + dbName;
    var ob := OffsetLength(DATA_START, |hostName| / 2) + OffsetLength(offUser, |userName| / 2) +
              OffsetLength(offPass, |passwordEnc| / 2) + OffsetLength(offApp, |appName| / 2) +
              NO_FIELD + NO_FIELD + NO_FIELD + NO_FIELD + OffsetLength(offDB, |dbName| / 2) +
              [0, 0, 0, 0, 0, 0] + NO_FIELD + NO_FIELD + NO_FIELD + NO_FIELD;
    out := FixedPart(DATA_START + |data|) + ob + data;
  }

  /** Reading a field through the table entry at `pos`: its bytes, or None when
      the entry is missing, empty or out of range. */
  function FieldAt(payload: bytes, pos: nat): Option<bytes> {
    if |payload| < pos + 4 then None else
      var start, count := U16LE(payload[pos..pos + 2]), U16LE(payload[pos + 2..pos + 4]);
      if count == 0 || start + 2 * count > |payload| then None else Some(payload[start..start + 2 * count])
  }

  function Token(payload: bytes): Option<Text> {
    match FieldAt(payload, PASSWORD_POS)
    case None => None
    case Some(b) => Some(DecodeLE(Clear(b)))
  }

  /** tokenFromLogin7. */
  method TokenFromLogin7(payload: bytes) returns (token: Option<Text>)
    ensures token == Token(payload)
  {
    hide ClearByte, DecodeLE, U16LE;
    if |payload| < PASSWORD_POS + 4 { return None; }
    var start := U16LE(payload[PASSWORD_POS..PASSWORD_POS + 2]);
    var cch := U16LE(payload[PASSWORD_POS + 2..PASSWORD_POS + 4]);
    if cch == 0 { return None; }
    var byteLen := cch * 2;
    if start + byteLen > |payload| { return None; }
    var obf := payload[start..start + byteLen];
    var clear := new byte[|obf|];
    var i := 0;
    while i < |obf|
      invariant 0 <= i <= |obf|
      invariant forall k :: 0 <= k < i ==> clear[k] == ClearByte(obf[k])
    {
      clear[i] := ClearByte(obf[i]);
      i := i + 1;
    }
    assert clear[..] == Clear(obf);
    token := Some(DecodeLE(clear[..]));
  }

  // ---------------------------------------------------------------- theorems

  /** A field behind a table entry is found when its offset and length fit. */
  lemma FieldThroughEntry(payload: bytes, pos: nat, off: nat, field: bytes)
    requires pos + 4 <= |payload| && payload[pos..pos + 4] == OffsetLength(off, |field| / 2)
    requires |field| % 2 == 0 && off < 0x1_0000 && |field| / 2 < 0x1_0000
    requires off + |field| <= |payload| && payload[off..off + |field|] == field
    ensures FieldAt(payload, pos) == if field == [] then None else Some(field)
  {
    hide PutU16LE, U16LE;
    var entry := payload[pos..pos + 4];
    assert payload[pos..pos + 2] == entry[..2] && payload[pos + 2..pos + 4] == entry[2..4];
    assert entry[..2] == PutU16LE(off) && entry[2..4] == PutU16LE(|field| / 2);
    U16LERoundTrip(off);
    U16LERoundTrip(|field| / 2);
  }

  lemma EntriesInPlace(f: Fields)
    ensures var m := Message(f);
            && |m| >= DATA_START
            && m[40..44] == OffsetLength(UserOffset(f), |f.user| / 2)
            && m[44..48] == OffsetLength(PasswordOffset(f), |f.password| / 2)
            && m[68..72] == OffsetLength(DatabaseOffset(f), |f.database| / 2)
  {
    hide OffsetLength, FixedPart, Data;
    var m, ob := Message(f), OffsetBlock(f);
    assert m[36..94] == ob;
    assert m[40..44] == ob[4..8] && m[44..48] == ob[8..12] && m[68..72] == ob[32..36];
  }

  lemma FieldsInPlace(f: Fields)
    ensures var m := Message(f);
            && DatabaseOffset(f) + |f.database| == |m|
            && m[UserOffset(f)..UserOffset(f) + |f.user|] == f.user
            && m[PasswordOffset(f)..PasswordOffset(f) + |f.password|] == f.password
            && m[DatabaseOffset(f)..] == f.database
  {
    hide OffsetBlock, FixedPart;
    var m, head := Message(f), FixedPart(DATA_START + |Data(f)|) + OffsetBlock(f);
    assert m == (head + f.host) + f.user + (f.password + f.app + f.database);
    InPlace(head + f.host, f.user, f.password + f.app + f.database);
    assert m == (head + f.host + f.user) + f.password + (f.app + f.database);
    InPlace(head + f.host + f.user, f.password, f.app + f.database);
    assert m == (head + f.host + f.user + f.password + f.app) + f.database;
  }

  lemma InPlace(before: bytes, field: bytes, after: bytes)
    ensures (before + field + after)[|before|..|before| + |field|] == field
  {
  }

  lemma EncodeIsEven(t: Text)
    ensures |EncodeLE(t)| % 2 == 0 && (EncodeLE(t) == [] <==> t == [])
  {
  }

  /** Whatever the user, password and database, the connect token is read back
      from the message built for it, as long as the password's offset and length
      fit their 16-bit fields; an empty password is refused. */
  lemma TokenRoundTrip(user: Text, password: Text, database: Text)
    requires DATA_START + 2 * (|HOST| + |Utf16.Encode(user)|) < 0x1_0000 && |Utf16.Encode(password)| < 0x1_0000
    ensures Token(Message(FieldsFor(user, password, database))) == if password == [] then None else Some(password)
  {
    hide Utf16.Encode, EncodeLE, Message, FieldAt, DecodeLE, Clear, Obfuscate, OffsetLength;
    var f := FieldsFor(user, password, database);
    var m := Message(f);
    EncodeLength(user);
    EncodeLength(password);
    HostLength();
    EncodeIsEven(password);
    EntriesInPlace(f);
    FieldsInPlace(f);
    assert m[44..44 + 4] == m[44..48];
    FieldThroughEntry(m, PASSWORD_POS, PasswordOffset(f), f.password);
    ClearInvertsObfuscate(EncodeLE(password));
    TextRoundTrip(password);
  }

  lemma {:induction false} OneUnitEach(t: Text)
    requires forall i :: 0 <= i < |t| ==> t[i] < 0x1_0000
    ensures |Utf16.Encode(t)| == |t|
  {
    if t != [] { OneUnitEach(t[1..]); }
  }

  lemma HostLength()
    ensures |EncodeLE(HOST)| == 2 * |HOST|
  {
    hide Utf16.Encode, EncodeLE;
    EncodeLength(HOST);
    OneUnitEach(HOST);
  }

  lemma EncodeLength(t: Text)
    ensures |EncodeLE(t)| == 2 * |Utf16.Encode(t)|
  {
  }

  /** The same table leads to the user and the database fields. */
  lemma UserAndDatabaseReadBack(f: Fields)
    requires |f.user| % 2 == 0 && |f.database| % 2 == 0
    requires DatabaseOffset(f) < 0x1_0000 && |f.database| / 2 < 0x1_0000
    ensures FieldAt(Message(f), 40) == if f.user == [] then None else Some(f.user)
    ensures FieldAt(Message(f), 68) == if f.database == [] then None else Some(f.database)
  {
    hide Message, FieldAt, OffsetLength;
    var m := Message(f);
    EntriesInPlace(f);
    FieldsInPlace(f);
    assert m[40..40 + 4] == m[40..44] && m[68..68 + 4] == m[68..72];
    FieldThroughEntry(m, 40, UserOffset(f), f.user);
    assert m[DatabaseOffset(f)..DatabaseOffset(f) + |f.database|] == m[DatabaseOffset(f)..];
    FieldThroughEntry(m, 68, DatabaseOffset(f), f.database);
  }
}
