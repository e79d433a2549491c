/** The byte layout of encrypted memory archives, and their import
    (crates/abigail-memory/src/archive.rs). */
module Archive {
  import opened Wrappers

  // ---- Bytes ----

  type Byte = x: int | 0 <= x < 256

  type Bytes = seq<Byte>

  const U32_LIMIT := 0x1_0000_0000

  /** `u32::to_le_bytes`. */
  function ToLe(n: nat): (bs: Bytes)
    requires n < U32_LIMIT
    ensures |bs| == 4 && FromLe(bs) == n
  {
    var n1 := n / 256;
    var n2 := n1 / 256;
    [n % 256, n1 % 256, n2 % 256, n2 / 256]
  }

  /** `u32::from_le_bytes`. */
  function FromLe(bs: Bytes): (n: nat)
    requires |bs| == 4
    ensures n < U32_LIMIT
  {
    var b0: int, b1: int, b2: int, b3: int := bs[0], bs[1], bs[2], bs[3];
    b0 + 256 * b1 + 65536 * b2 + 16777216 * b3
  }

  lemma LowByte(b: Byte, rest: nat)
    ensures (b + 256 * rest) % 256 == b && (b + 256 * rest) / 256 == rest
  {
  }

  lemma LeBytesAreUnique(bs: Bytes)
    requires |bs| == 4
    ensures ToLe(FromLe(bs)) == bs
  {
    var b0: int, b1: int, b2: int, b3: int := bs[0], bs[1], bs[2], bs[3];
    LowByte(bs[0], b1 + 256 * b2 + 65536 * b3);
    LowByte(bs[1], b2 + 256 * b3);
    LowByte(bs[2], b3);
    assert FromLe(bs) == b0 + 256 * (b1 + 256 * b2 + 65536 * b3);
  }

  // ---- Ideal primitives ----

  datatype Header = Header(version: nat, keyExchange: string, keyDerivation: string, cipher: string,
                           ephemeralPublicKey: string, nonce: string, exportedAt: string)

  /** X25519, Ed25519, HKDF, AES-GCM, base64 (of trimmed text) and the header's JSON, as
      functions. */
  datatype Primitives = Primitives(
    publicOf: Bytes -> Bytes,
    shared: (Bytes, Bytes) -> Bytes,
    edPublicOf: Bytes -> Bytes,
    toX25519Public: Bytes -> Bytes,
    toX25519Secret: Bytes -> Bytes,
    derive: Bytes -> Bytes,
    seal: (Bytes, Bytes, Bytes, Bytes) -> Bytes,
    open: (Bytes, Bytes, Bytes, Bytes) -> Option<Bytes>,
    encodeHeader: Header -> Bytes,
    decodeHeader: Bytes -> Option<Header>,
    encode64: Bytes -> string,
    decode64: string -> Option<Bytes>)

  /** Both sides of an exchange get the same secret. */
  ghost predicate Agrees(x: Primitives) {
    && (forall s, t :: x.shared(s, x.publicOf(t)) == x.shared(t, x.publicOf(s)))
    && (forall s :: x.toX25519Public(x.edPublicOf(s)) == x.publicOf(x.toX25519Secret(s)))
    && (forall s :: |x.publicOf(s)| == 32 && |x.edPublicOf(s)| == 32)
  }

  /** What is sealed opens with the same key, nonce and associated data. */
  ghost predicate Opens(x: Primitives) {
    forall k, n, a, m :: x.open(k, n, a, x.seal(k, n, a, m)) == Some(m) && x.seal(k, n, a, m) != []
  }

  ghost predicate Decodes(x: Primitives) {
    && (forall h :: x.decodeHeader(x.encodeHeader(h)) == Some(h))
    && (forall b :: x.decode64(x.encode64(b)) == Some(b))
  }

  /** Nothing opens but what was sealed with this key, nonce and associated data, and
      no ciphertext is sealed in two ways. */
  ghost predicate Authenticates(x: Primitives) {
    && (forall k, n, a, c :: x.open(k, n, a, c).Some? ==> c == x.seal(k, n, a, x.open(k, n, a, c).value))
    && (forall k, n, a, m, k', n', a', m' ::
          x.seal(k, n, a, m) == x.seal(k', n', a', m') ==> k == k' && n == n' && a == a' && m == m')
  }

  // ---- Export ----

  datatype Error =
    | BadPublicKey | HeaderTooLarge | TooShort | BadRecoveryKey | UnsupportedVersion
    | HeaderTruncated | BadHeader | VersionMismatch | UnsupportedSuite | BadEphemeralKey | BadNonce
    | DecryptionFailed | BadPayload

  const V1 := 1
  const V2 := 2
  const NONCE_LEN := 12

  function HeaderFor(x: Primitives, ephemeral: Bytes, nonce: Bytes, exportedAt: string): Header {
    Header(V2, "x25519", "hkdf-sha256", "aes-256-gcm", x.encode64(x.publicOf(ephemeral)), x.encode64(nonce),
           exportedAt)
  }

  function Prefix(header: Bytes): Bytes
    requires |header| < U32_LIMIT
  {
    ToLe(V2) + ToLe(|header|) + header
  }

  /** The archive of `plain` for the owner of a public key; `ephemeral` and `nonce` are
      drawn at random. The prefix is the cipher's associated data. */
  method Export(x: Primitives, publicKey: Bytes, plain: Bytes, ephemeral: Bytes, nonce: Bytes, exportedAt: string)
      returns (r: Result<Bytes, Error>)
    ensures r == Exported(x, publicKey, plain, ephemeral, nonce, exportedAt)
  {
    if |publicKey| != 32 {
      return Err(BadPublicKey);
    }
    var key := x.derive(x.shared(ephemeral, x.toX25519Public(publicKey)));
    var header := x.encodeHeader(HeaderFor(x, ephemeral, nonce, exportedAt));
    if |header| >= U32_LIMIT {
      return Err(HeaderTooLarge);
    }
    var out: Bytes := [];
    out := out + ToLe(V2);
    out := out + ToLe(|header|);
    out := out + header;
    assert out == Prefix(header);
    out := out + x.seal(key, nonce, out, plain);
    return Ok(out);
  }

  function Exported(x: Primitives, publicKey: Bytes, plain: Bytes, ephemeral: Bytes, nonce: Bytes,
                    exportedAt: string): Result<Bytes, Error>
  {
    var key := x.derive(x.shared(ephemeral, x.toX25519Public(publicKey)));
    var header := x.encodeHeader(HeaderFor(x, ephemeral, nonce, exportedAt));
    if |publicKey| != 32 then Err(BadPublicKey)
    else if |header| >= U32_LIMIT then Err(HeaderTooLarge)
    else Ok(Prefix(header) + x.seal(key, nonce, Prefix(header), plain))
  }

  /** The layout that version 1 archives have: no header, no associated data, and the
      shared secret as the key. */
  function ArchiveV1(x: Primitives, publicKey: Bytes, plain: Bytes, ephemeral: Bytes, nonce: Bytes): Bytes {
    ToLe(V1) + x.publicOf(ephemeral) + nonce
    + x.seal(x.shared(ephemeral, x.toX25519Public(publicKey)), nonce, [], plain)
  }

  // ---- Restore ----

  function Opened(c: Option<Bytes>): Result<Bytes, Error> {
    if c.Some? then Ok(c.value) else Err(DecryptionFailed)
  }

  function DecryptV1(x: Primitives, data: Bytes, secret: Bytes): Result<Bytes, Error> {
    if |data| < 4 + 32 + NONCE_LEN then Err(TooShort)
    else Opened(x.open(x.shared(secret, data[4..36]), data[36..36 + NONCE_LEN], [], data[36 + NONCE_LEN..]))
  }

  function HeaderEnd(data: Bytes): nat
    requires 8 <= |data|
  {
    8 + FromLe(data[4..8])
  }

  function DecryptV2(x: Primitives, data: Bytes, secret: Bytes): Result<Bytes, Error> {
    if |data| < 8 then Err(TooShort)
    else
      var headerEnd := HeaderEnd(data);
      if |data| <= headerEnd then Err(HeaderTruncated)
      else
        match x.decodeHeader(data[8..headerEnd])
        case None => Err(BadHeader)
        case Some(h) =>
          if h.version != V2 then Err(VersionMismatch)
          else if h.keyExchange != "x25519" || h.keyDerivation != "hkdf-sha256" || h.cipher != "aes-256-gcm"
          then Err(UnsupportedSuite)
          else
            match (x.decode64(h.ephemeralPublicKey), x.decode64(h.nonce))
            case (Some(ephemeral), Some(nonce)) =>
              if |ephemeral| != 32 then Err(BadEphemeralKey)
              else if |nonce| != NONCE_LEN then Err(BadNonce)
              else Opened(x.open(x.derive(x.shared(secret, ephemeral)), nonce, data[..headerEnd], data[headerEnd..]))
            case (Some(ephemeral), None) => Err(if |ephemeral| != 32 then BadEphemeralKey else BadNonce)
            case (None, _) => Err(BadEphemeralKey)
  }

  /** `recoveryKey` is the base64 text of the Ed25519 seed. */
  function Decrypt(x: Primitives, data: Bytes, recoveryKey: string): Result<Bytes, Error> {
    if |data| < 4 then Err(TooShort)
    else
      var version := FromLe(data[..4]);
      match x.decode64(recoveryKey)
      case None => Err(BadRecoveryKey)
      case Some(seed) =>
        if |seed| != 32 then Err(BadRecoveryKey)
        else
          var secret := x.toX25519Secret(seed);
          if version == V1 then DecryptV1(x, data, secret)
          else if version == V2 then DecryptV2(x, data, secret)
          else Err(UnsupportedVersion)
  }

  // ---- Round trips ----

  lemma PrefixParts(header: Bytes, rest: Bytes)
    requires |header| < U32_LIMIT
    ensures var data := Prefix(header) + rest;
            && |data| == 8 + |header| + |rest| && FromLe(data[..4]) == V2
            && HeaderEnd(data) == 8 + |header| && data[8..8 + |header|] == header
            && data[..8 + |header|] == Prefix(header) && data[8 + |header|..] == rest
  {
  }

  lemma SameSecret(x: Primitives, ephemeral: Bytes, seed: Bytes)
    requires Agrees(x)
    ensures x.shared(x.toX25519Secret(seed), x.publicOf(ephemeral))
         == x.shared(ephemeral, x.toX25519Public(x.edPublicOf(seed)))
  {
  }

  /** Whatever is exported for a key pair, the owner of the seed gets back; nothing but
      an oversized header keeps it from being exported. */
  lemma ExportedIsRestored(x: Primitives, seed: Bytes, plain: Bytes, ephemeral: Bytes, nonce: Bytes,
                           exportedAt: string)
    requires Agrees(x) && Opens(x) && Decodes(x) && |seed| == 32 && |nonce| == NONCE_LEN
    ensures match Exported(x, x.edPublicOf(seed), plain, ephemeral, nonce, exportedAt)
            case Ok(archive) => Decrypt(x, archive, x.encode64(seed)) == Ok(plain)
            case Err(e) => e == HeaderTooLarge
  {
    hide Agrees, Opens, ToLe, FromLe, Prefix, HeaderEnd;
    PublicKeyLength(x, seed);
    var header := x.encodeHeader(HeaderFor(x, ephemeral, nonce, exportedAt));
    if |header| < U32_LIMIT {
      var key := x.derive(x.shared(ephemeral, x.toX25519Public(x.edPublicOf(seed))));
      PrefixParts(header, x.seal(key, nonce, Prefix(header), plain));
      SameSecret(x, ephemeral, seed);
      SealOpens(x, key, nonce, Prefix(header), plain);
      PublicKeyLength(x, ephemeral);
    }
  }

  lemma SealOpens(x: Primitives, k: Bytes, n: Bytes, a: Bytes, m: Bytes)
    requires Opens(x)
    ensures x.open(k, n, a, x.seal(k, n, a, m)) == Some(m) && x.seal(k, n, a, m) != []
  {
  }

  lemma PublicKeyLength(x: Primitives, s: Bytes)
    requires Agrees(x)
    ensures |x.publicOf(s)| == 32 && |x.edPublicOf(s)| == 32
  {
  }

  /** Exporting fails for a public key that is not 32 bytes long and for an oversized
      header, and for nothing else. */
  lemma ExportFailsExactly(x: Primitives, publicKey: Bytes, plain: Bytes, ephemeral: Bytes, nonce: Bytes,
                           exportedAt: string)
    ensures match Exported(x, publicKey, plain, ephemeral, nonce, exportedAt)
            case Ok(_) => |publicKey| == 32 && |x.encodeHeader(HeaderFor(x, ephemeral, nonce, exportedAt))| < U32_LIMIT
            case Err(e) =>
              || (e == BadPublicKey && |publicKey| != 32)
              || (e == HeaderTooLarge && |publicKey| == 32
                  && U32_LIMIT <= |x.encodeHeader(HeaderFor(x, ephemeral, nonce, exportedAt))|)
  {
    hide Prefix, HeaderFor;
  }

  /** Exporting fails for no public key file of the right size but by the header's size. */
  lemma ExportSucceeds(x: Primitives, seed: Bytes, plain: Bytes, ephemeral: Bytes, nonce: Bytes, exportedAt: string)
    requires Agrees(x)
    ensures Exported(x, x.edPublicOf(seed), plain, ephemeral, nonce, exportedAt).Ok?
       <==> |x.encodeHeader(HeaderFor(x, ephemeral, nonce, exportedAt))| < U32_LIMIT
  {
    hide Agrees, Prefix, HeaderFor, ToLe;
    PublicKeyLength(x, seed);
  }

  lemma PartsV1(ephemeralPublic: Bytes, nonce: Bytes, rest: Bytes)
    requires |ephemeralPublic| == 32 && |nonce| == NONCE_LEN
    ensures var data := ToLe(V1) + ephemeralPublic + nonce + rest;
            && |data| >= 4 + 32 + NONCE_LEN && FromLe(data[..4]) == V1
            && data[4..36] == ephemeralPublic && data[36..36 + NONCE_LEN] == nonce
            && data[36 + NONCE_LEN..] == rest
  {
  }

  /** Archives of the old layout are restored too. */
  lemma ArchiveV1IsRestored(x: Primitives, seed: Bytes, plain: Bytes, ephemeral: Bytes, nonce: Bytes)
    requires Agrees(x) && Opens(x) && Decodes(x) && |seed| == 32 && |nonce| == NONCE_LEN
    ensures Decrypt(x, ArchiveV1(x, x.edPublicOf(seed), plain, ephemeral, nonce), x.encode64(seed)) == Ok(plain)
  {
    hide Agrees, Opens, ToLe, FromLe;
    var key := x.shared(ephemeral, x.toX25519Public(x.edPublicOf(seed)));
    PublicKeyLength(x, ephemeral);
    PartsV1(x.publicOf(ephemeral), nonce, x.seal(key, nonce, [], plain));
    SameSecret(x, ephemeral, seed);
    SealOpens(x, key, nonce, [], plain);
  }

  // ---- What is accepted ----

  /** Version 2 data is accepted only as a prefix with what that very prefix seals. */
  lemma AcceptedIsSealed(x: Primitives, data: Bytes, secret: Bytes)
    requires Authenticates(x) && DecryptV2(x, data, secret).Ok?
    ensures 8 <= |data| && HeaderEnd(data) < |data|
    ensures exists k, n :: data[HeaderEnd(data)..]
                           == x.seal(k, n, data[..HeaderEnd(data)], DecryptV2(x, data, secret).value)
  {
  }

  /** An exported ciphertext is bound to its prefix: put behind any other header, or
      opened with any key, it yields the exported text from the exported bytes or nothing. */
  lemma CiphertextIsBound(x: Primitives, publicKey: Bytes, plain: Bytes, ephemeral: Bytes, nonce: Bytes,
                          exportedAt: string, data: Bytes, secret: Bytes)
    requires Authenticates(x) && Exported(x, publicKey, plain, ephemeral, nonce, exportedAt).Ok?
    requires DecryptV2(x, data, secret).Ok?
    requires var archive := Exported(x, publicKey, plain, ephemeral, nonce, exportedAt).value;
             8 <= |data| && HeaderEnd(data) < |data| && 8 <= |archive| && HeaderEnd(archive) <= |archive|
             && data[HeaderEnd(data)..] == archive[HeaderEnd(archive)..]
    ensures data == Exported(x, publicKey, plain, ephemeral, nonce, exportedAt).value
    ensures DecryptV2(x, data, secret) == Ok(plain)
  {
    hide DecryptV2, Authenticates, HeaderEnd, FromLe, ToLe, Prefix;
    var header := x.encodeHeader(HeaderFor(x, ephemeral, nonce, exportedAt));
    var key := x.derive(x.shared(ephemeral, x.toX25519Public(publicKey)));
    PrefixParts(header, x.seal(key, nonce, Prefix(header), plain));
    AcceptedIsSealed(x, data, secret);
    var end := HeaderEnd(data);
    var got := DecryptV2(x, data, secret).value;
    var k, n :| data[end..] == x.seal(k, n, data[..end], got);
    SealsAreUnique(x, k, n, data[..end], got, key, nonce, Prefix(header), plain);
    assert data == data[..end] + data[end..];
  }

  lemma SealsAreUnique(x: Primitives, k: Bytes, n: Bytes, a: Bytes, m: Bytes, k': Bytes, n': Bytes, a': Bytes,
                       m': Bytes)
    requires Authenticates(x) && x.seal(k, n, a, m) == x.seal(k', n', a', m')
    ensures a == a' && m == m'
  {
  }

  // ---- What is rejected, and why ----

  /** The recovery key's text is that of 32 bytes. */
  predicate IsSeed(x: Primitives, recoveryKey: string) {
    x.decode64(recoveryKey).Some? && |x.decode64(recoveryKey).value| == 32
  }

  /** Data of a version that is looked into. */
  predicate HasVersion(x: Primitives, data: Bytes, recoveryKey: string, version: nat) {
    4 <= |data| && IsSeed(x, recoveryKey) && FromLe(data[..4]) == version
  }

  /** The header of version 2 data, when it is there and can be read. */
  function HeaderOf(x: Primitives, data: Bytes): Option<Header> {
    if 8 <= |data| && 8 + FromLe(data[4..8]) < |data| then x.decodeHeader(data[8..8 + FromLe(data[4..8])]) else None
  }

  predicate IsKnownSuite(h: Header) {
    h.version == 2 && h.keyExchange == "x25519" && h.keyDerivation == "hkdf-sha256" && h.cipher == "aes-256-gcm"
  }

  predicate HasLength(b: Option<Bytes>, n: nat) {
    b.Some? && |b.value| == n
  }

  /** What is wrong with the data, with everything looked at before it being right. */
  predicate IsRejected(x: Primitives, data: Bytes, recoveryKey: string, e: Error) {
    var v1, v2, h := HasVersion(x, data, recoveryKey, 1), HasVersion(x, data, recoveryKey, 2), HeaderOf(x, data);
    match e
    case TooShort => |data| < 4 || (v1 && |data| < 48) || (v2 && |data| < 8)
    case BadRecoveryKey => 4 <= |data| && !IsSeed(x, recoveryKey)
    case UnsupportedVersion => 4 <= |data| && IsSeed(x, recoveryKey) && FromLe(data[..4]) !in {1, 2}
    case HeaderTruncated => v2 && 8 <= |data| <= 8 + FromLe(data[4..8])
    case BadHeader => v2 && 8 <= |data| && 8 + FromLe(data[4..8]) < |data| && h.None?
    case VersionMismatch => v2 && h.Some? && h.value.version != 2
    case UnsupportedSuite => v2 && h.Some? && h.value.version == 2 && !IsKnownSuite(h.value)
    case BadEphemeralKey =>
      v2 && h.Some? && IsKnownSuite(h.value) && !HasLength(x.decode64(h.value.ephemeralPublicKey), 32)
    case BadNonce =>
      && v2 && h.Some? && IsKnownSuite(h.value) && HasLength(x.decode64(h.value.ephemeralPublicKey), 32)
      && !HasLength(x.decode64(h.value.nonce), 12)
    case DecryptionFailed =>
      var secret := if IsSeed(x, recoveryKey) then x.toX25519Secret(x.decode64(recoveryKey).value) else [];
      || (v1 && 48 <= |data| && x.open(x.shared(secret, data[4..36]), data[36..48], [], data[48..]).None?)
      || (v2 && h.Some? && IsKnownSuite(h.value) && HasLength(x.decode64(h.value.ephemeralPublicKey), 32)
          && HasLength(x.decode64(h.value.nonce), 12)
          && var end := 8 + FromLe(data[4..8]);
             x.open(x.derive(x.shared(secret, x.decode64(h.value.ephemeralPublicKey).value)),
                    x.decode64(h.value.nonce).value, data[..end], data[end..]).None?)
    case _ => false
  }

  /** Data is rejected with an error exactly when that is the first thing wrong with it. */
  lemma RejectedExactly(x: Primitives, data: Bytes, recoveryKey: string, e: Error)
    ensures Decrypt(x, data, recoveryKey) == Err(e) <==> IsRejected(x, data, recoveryKey, e)
  {
    hide FromLe;
  }

  // ---- What is imported ----

  datatype Weight = Ephemeral | Distilled | Crystallized

  datatype Turn = Turn(id: string, content: string)

  datatype Memory = Memory(id: string, content: string, weight: Weight, createdAt: int)

  datatype MemoryRecord = MemoryRecord(id: string, content: string, weight: string, createdAt: string)

  datatype Payload = Payload(version: nat, exportedAt: string, turns: seq<Turn>, memories: seq<MemoryRecord>)

  /** RFC 3339 timestamps. */
  datatype Clock = Clock(format: int -> string, parse: string -> Option<int>)

  ghost predicate Parses(clock: Clock) {
    forall t :: clock.parse(clock.format(t)) == Some(t)
  }

  function WeightName(w: Weight): string {
    match w
    case Ephemeral => "ephemeral"
    case Distilled => "distilled"
    case Crystallized => "crystallized"
  }

  function WeightNamed(name: string): Weight {
    if name == "distilled" then Distilled
    else if name == "crystallized" then Crystallized
    else Ephemeral
  }

  function Recorded(clock: Clock, m: Memory): MemoryRecord {
    MemoryRecord(m.id, m.content, WeightName(m.weight), clock.format(m.createdAt))
  }

  /** `now` is what the clock reads when a timestamp cannot be parsed. */
  function MemoryOf(clock: Clock, r: MemoryRecord, now: int): Memory {
    var at := clock.parse(r.createdAt);
    Memory(r.id, r.content, WeightNamed(r.weight), if at.Some? then at.value else now)
  }

  lemma RecordedComesBack(clock: Clock, m: Memory, now: int)
    requires Parses(clock)
    ensures MemoryOf(clock, Recorded(clock, m), now) == m
  {
    WeightComesBack(m.weight);
  }

  /** A record that some other program wrote: what it becomes is recorded again as it was
      exactly when its weight has one of the three names and its time is one that the clock
      formats; a time that cannot be parsed becomes the time of the import. */
  lemma ForeignRecordExactly(clock: Clock, r: MemoryRecord, now: int)
    requires Parses(clock)
    ensures Recorded(clock, MemoryOf(clock, r, now)) == r
       <==> r.weight in {"ephemeral", "distilled", "crystallized"} && exists t :: clock.format(t) == r.createdAt
    ensures clock.parse(r.createdAt).None? ==> MemoryOf(clock, r, now).createdAt == now
    ensures r.weight !in {"distilled", "crystallized"} ==> MemoryOf(clock, r, now).weight == Ephemeral
  {
    var m := MemoryOf(clock, r, now);
    if t :| clock.format(t) == r.createdAt {
      assert clock.parse(clock.format(t)) == Some(t);
    }
    if Recorded(clock, m) == r {
      assert clock.format(m.createdAt) == r.createdAt;
    }
  }

  lemma WeightComesBack(w: Weight)
    ensures WeightNamed(WeightName(w)) == w
  {
  }

  /** The store after inserting in turn: an id that is there already is not replaced. */
  function Inserted<T>(store: map<string, T>, ids: seq<string>, values: seq<T>): map<string, T>
    requires |ids| == |values|
  {
    if ids == [] then store
    else
      var n := |ids| - 1;
      InsertedOne(Inserted(store, ids[..n], values[..n]), ids[n], values[n])
  }

  function InsertedOne<T>(store: map<string, T>, id: string, value: T): map<string, T> {
    if id in store then store else store[id := value]
  }

  function IdsOf<T>(rows: seq<T>, idOf: T -> string): (ids: seq<string>)
    ensures |ids| == |rows|
  {
    seq(|rows|, i requires 0 <= i < |rows| => idOf(rows[i]))
  }

  function TurnId(t: Turn): string { t.id }

  function MemoryId(m: Memory): string { m.id }

  function RecordId(r: MemoryRecord): string { r.id }

  function MemoriesOf(clock: Clock, rs: seq<MemoryRecord>, now: nat -> int): (ms: seq<Memory>)
    ensures |ms| == |rs|
  {
    seq(|rs|, i requires 0 <= i < |rs| => MemoryOf(clock, rs[i], now(i)))
  }

  class MemoryStore {
    var turns: map<string, Turn>
    var memories: map<string, Memory>

    method InsertTurn(turn: Turn) returns (ok: bool)
      modifies this`turns
      ensures turns == InsertedOne(old(turns), turn.id, turn) && (ok <==> turn.id !in old(turns))
    {
      if turn.id in turns {
        return false;
      }
      turns := turns[turn.id := turn];
      return true;
    }

    method InsertMemory(memory: Memory) returns (ok: bool)
      modifies this`memories
      ensures memories == InsertedOne(old(memories), memory.id, memory) && (ok <==> memory.id !in old(memories))
    {
      if memory.id in memories {
        return false;
      }
      memories := memories[memory.id := memory];
      return true;
    }

    method ImportTurns(rows: seq<Turn>) returns (count: nat)
      modifies this`turns
      ensures turns == Inserted(old(turns), IdsOf(rows, TurnId), rows)
      ensures count == |turns| - |old(turns)|
    {
      hide Inserted;
      ghost var ids := IdsOf(rows, TurnId);
      count := 0;
      NoneInserted(turns, ids, rows);
      for i := 0 to |rows|
        invariant turns == Inserted(old(turns), ids[..i], rows[..i])
        invariant count == |turns| - |old(turns)|
      {
        InsertedNext(old(turns), ids, rows, i);
        assert ids[i] == TurnId(rows[i]);
        var ok := InsertTurn(rows[i]);
        if ok {
          count := count + 1;
        }
      }
      assert ids[..|rows|] == ids && rows[..|rows|] == rows;
    }

    /** `now(i)` is read for the `i`-th memory. */
    method ImportMemories(rows: seq<MemoryRecord>, clock: Clock, now: nat -> int) returns (count: nat)
      modifies this`memories
      ensures memories == Inserted(old(memories), IdsOf(rows, RecordId), MemoriesOf(clock, rows, now))
      ensures count == |memories| - |old(memories)|
    {
      hide Inserted;
      ghost var ids, ms := IdsOf(rows, RecordId), MemoriesOf(clock, rows, now);
      count := 0;
      NoneInserted(memories, ids, ms);
      for i := 0 to |rows|
        invariant memories == Inserted(old(memories), ids[..i], ms[..i])
        invariant count == |memories| - |old(memories)|
      {
        InsertedNext(old(memories), ids, ms, i);
        assert ids[i] == RecordId(rows[i]) && ms[i] == MemoryOf(clock, rows[i], now(i));
        var ok := InsertMemory(MemoryOf(clock, rows[i], now(i)));
        if ok {
          count := count + 1;
        }
      }
      assert ids[..|rows|] == ids && ms[..|rows|] == ms;
    }

    /** Turns first, then memories; what is inserted is counted. */
    method Import(payload: Payload, clock: Clock, now: nat -> int) returns (turnCount: nat, memoryCount: nat)
      modifies this
      ensures turns == Inserted(old(turns), IdsOf(payload.turns, TurnId), payload.turns)
      ensures memories == Inserted(old(memories), IdsOf(payload.memories, RecordId),
                                   MemoriesOf(clock, payload.memories, now))
      ensures turnCount == |turns| - |old(turns)| && memoryCount == |memories| - |old(memories)|
    {
      turnCount := ImportTurns(payload.turns);
      memoryCount := ImportMemories(payload.memories, clock, now);
    }
  }

  lemma NoneInserted<T>(store: map<string, T>, ids: seq<string>, values: seq<T>)
    ensures Inserted(store, ids[..0], values[..0]) == store
  {
  }

  lemma InsertedNext<T>(store: map<string, T>, ids: seq<string>, values: seq<T>, i: nat)
    requires i < |ids| == |values|
    ensures Inserted(store, ids[..i + 1], values[..i + 1])
         == InsertedOne(Inserted(store, ids[..i], values[..i]), ids[i], values[i])
  {
    assert ids[..i + 1][..i] == ids[..i] && values[..i + 1][..i] == values[..i];
  }

  /** What was there stays; what is added has one of the ids. */
  lemma {:induction false} InsertedKeeps<T>(store: map<string, T>, ids: seq<string>, values: seq<T>, id: string)
    requires |ids| == |values|
    ensures id in Inserted(store, ids, values) <==> id in store || id in ids
    ensures id in store ==> Inserted(store, ids, values)[id] == store[id]
  {
    if ids != [] {
      var n := |ids| - 1;
      InsertedKeeps(store, ids[..n], values[..n], id);
      assert ids == ids[..n] + [ids[n]];
    }
  }

  /** A new id gets the first value that comes for it. */
  lemma {:induction false} InsertedFirst<T>(store: map<string, T>, ids: seq<string>, values: seq<T>, i: nat)
    requires i < |ids| == |values| && ids[i] !in store && ids[i] !in ids[..i]
    ensures ids[i] in Inserted(store, ids, values) && Inserted(store, ids, values)[ids[i]] == values[i]
    decreases |ids|
  {
    var n := |ids| - 1;
    if i < n {
      assert ids[..n][..i] == ids[..i];
      InsertedFirst(store, ids[..n], values[..n], i);
    } else {
      InsertedKeeps(store, ids[..n], values[..n], ids[n]);
    }
  }

  /** `ids` and `values` list a table, in any order, each row once. */
  ghost predicate Lists<T(!new)>(table: map<string, T>, ids: seq<string>, values: seq<T>) {
    && |ids| == |values|
    && (forall id :: id in table <==> id in ids)
    && (forall i :: 0 <= i < |ids| ==> ids[i] in table && table[ids[i]] == values[i])
    && forall i, j :: 0 <= i < j < |ids| ==> ids[i] != ids[j]
  }

  /** Importing a listed table into an empty one gives it back; importing it again, or
      into the table itself, changes nothing. */
  lemma ListedComesBack<T(!new)>(table: map<string, T>, ids: seq<string>, values: seq<T>)
    requires Lists(table, ids, values)
    ensures Inserted(map[], ids, values) == table
    ensures Inserted(table, ids, values) == table
  {
    forall id
      ensures id in Inserted(map[], ids, values) <==> id in table
      ensures id in table ==> Inserted(map[], ids, values)[id] == table[id]
      ensures id in Inserted(table, ids, values) <==> id in table
      ensures id in table ==> Inserted(table, ids, values)[id] == table[id]
    {
      InsertedKeeps(map[], ids, values, id);
      InsertedKeeps(table, ids, values, id);
      if id in table {
        var i :| 0 <= i < |ids| && ids[i] == id;
        InsertedFirst(map[], ids, values, i);
      }
    }
  }

  function RecordedAll(clock: Clock, ms: seq<Memory>): (rs: seq<MemoryRecord>)
    ensures |rs| == |ms|
  {
    seq(|ms|, i requires 0 <= i < |ms| => Recorded(clock, ms[i]))
  }

  /** A store exported in any order and imported into an empty one is the same store,
      weights and times included; into itself, nothing is imported. */
  lemma StoreComesBack(turns: map<string, Turn>, memories: map<string, Memory>, ts: seq<Turn>, ms: seq<Memory>,
                       clock: Clock, now: nat -> int, into: bool)
    requires Lists(turns, IdsOf(ts, TurnId), ts) && Lists(memories, IdsOf(ms, MemoryId), ms) && Parses(clock)
    ensures var rs := RecordedAll(clock, ms);
            && Inserted(if into then turns else map[], IdsOf(ts, TurnId), ts) == turns
            && Inserted(if into then memories else map[], IdsOf(rs, RecordId), MemoriesOf(clock, rs, now)) == memories
  {
    hide Lists, Inserted, Recorded;
    var rs := RecordedAll(clock, ms);
    ListedComesBack(turns, IdsOf(ts, TurnId), ts);
    ListedComesBack(memories, IdsOf(ms, MemoryId), ms);
    forall i | 0 <= i < |ms|
      ensures MemoriesOf(clock, rs, now)[i] == ms[i] && IdsOf(rs, RecordId)[i] == IdsOf(ms, MemoryId)[i]
    {
      RecordedComesBack(clock, ms[i], now(i));
      RecordedId(clock, ms[i]);
      assert IdsOf(rs, RecordId)[i] == RecordId(rs[i]) && rs[i] == Recorded(clock, ms[i]);
      assert IdsOf(ms, MemoryId)[i] == MemoryId(ms[i]);
    }
    assert MemoriesOf(clock, rs, now) == ms && IdsOf(rs, RecordId) == IdsOf(ms, MemoryId);
  }

  lemma RecordedId(clock: Clock, m: Memory)
    ensures Recorded(clock, m).id == m.id
  {
  }
}
