/** The on-disk record of the file store: the CFR2 header with key, the older CFR1
    header without one, and a legacy JSON form read through a supplied decoder. */
module FileRecord {
  import opened Bytes

  const MAGIC_V1: bytes := [67, 70, 82, 49]  // "CFR1"
  const MAGIC_V2: bytes := [67, 70, 82, 50]  // "CFR2"

  const TWO_32: int := 0x1_0000_0000

  datatype Record = Record(key: bytes, expiresAt: int, value: bytes)

  /** The JSON reader for records that carry neither magic; `None` is its error. */
  type JsonReader = bytes -> Option<Record>

  function Encode(rec: Record): (data: bytes)
    requires IsInt64(rec.expiresAt)
  {
    MAGIC_V2 + PutInt64(rec.expiresAt) + BigEndian(|rec.key| % TWO_32, 4) + rec.key + rec.value
  }

  function Decode(data: bytes, json: JsonReader): (r: Option<Record>)
  {
    if |data| >= 16 && data[..4] == MAGIC_V2 then
      var keyLen := FromBigEndian(data[12..16]);
      if keyLen > |data| - 16 then None
      else Some(Record(data[16..16 + keyLen], GetInt64(data[4..12]), data[16 + keyLen..]))
    else if |data| >= 12 && data[..4] == MAGIC_V1 then
      Some(Record([], GetInt64(data[4..12]), data[12..]))
    else
      json(data)
  }

  lemma Slices(magic: bytes, stamp: bytes, len: bytes, key: bytes, value: bytes)
    requires |magic| == 4 && |stamp| == 8 && |len| == 4
    ensures var data := magic + stamp + len + key + value;
            && |data| == 16 + |key| + |value|
            && data[..4] == magic && data[4..12] == stamp && data[12..16] == len
            && data[16..16 + |key|] == key && data[16 + |key|..] == value
  {
  }

  lemma FitsInFour(n: nat, width: nat)
    requires n < TWO_32 && width == 4
    ensures FromBigEndian(BigEndian(n, width)) == n
  {
    Pow256Values();
    BigEndianRoundTrip(n, width);
  }

  lemma KeyLength(n: nat)
    requires n < TWO_32
    ensures FromBigEndian(BigEndian(n % TWO_32, 4)) == n
  {
    assert n % TWO_32 == n;
    FitsInFour(n, 4);
  }

  /** How the reader sees any record laid out with the CFR2 header. */
  lemma DecodeLaidOut(stamp: bytes, len: bytes, key: bytes, value: bytes, json: JsonReader)
    requires |stamp| == 8 && |len| == 4 && FromBigEndian(len) == |key|
    ensures Decode(MAGIC_V2 + stamp + len + key + value, json) == Some(Record(key, GetInt64(stamp), value))
  {
    Slices(MAGIC_V2, stamp, len, key, value);
  }

  /** Every record the store writes is read back whole, as a CFR2 record, whatever
      bytes the key and the value hold. */
  lemma RoundTrip(rec: Record, json: JsonReader)
    requires IsInt64(rec.expiresAt) && |rec.key| < TWO_32
    ensures Decode(Encode(rec), json) == Some(rec)
  {
    KeyLength(|rec.key|);
    Int64RoundTrip(rec.expiresAt);
    DecodeLaidOut(PutInt64(rec.expiresAt), BigEndian(|rec.key| % TWO_32, 4), rec.key, rec.value, json);
  }

  /** The reader's expiry test: zero and negative stamps never expire. */
  predicate Expired(rec: Record, now: int) {
    rec.expiresAt > 0 && now > rec.expiresAt
  }

  /** The layout on disk: "CFR2", eight bytes of stamp, four of key length, key, value. */
  lemma Layout(rec: Record)
    requires IsInt64(rec.expiresAt) && |rec.key| < TWO_32
    ensures var data := Encode(rec);
            && |data| == 16 + |rec.key| + |rec.value| && data[..4] == [67, 70, 82, 50]
            && data[4..12] == PutInt64(rec.expiresAt) && FromBigEndian(data[12..16]) == |rec.key|
            && data[16..16 + |rec.key|] == rec.key && data[16 + |rec.key|..] == rec.value
  {
    Slices(MAGIC_V2, PutInt64(rec.expiresAt), BigEndian(|rec.key| % TWO_32, 4), rec.key, rec.value);
    KeyLength(|rec.key|);
  }

  /** An older record: "CFR1", eight bytes of stamp, the value, and no key. */
  lemma ReadsOlderRecord(stamp: bytes, value: bytes, json: JsonReader)
    requires |stamp| == 8
    ensures Decode([67, 70, 82, 49] + stamp + value, json) == Some(Record([], GetInt64(stamp), value))
  {
    var data := [67, 70, 82, 49] + stamp + value;
    assert data[..4] == [67, 70, 82, 49] && data[4..12] == stamp && data[12..] == value;
  }

  /** A key length beyond the data is an error; what carries neither mark, or is too short
      for it, is left to the JSON reader. */
  lemma ReadsOtherData(data: bytes, json: JsonReader)
    ensures |data| >= 16 && data[..4] == [67, 70, 82, 50] && FromBigEndian(data[12..16]) > |data| - 16 ==>
              Decode(data, json) == None
    ensures (|data| >= 4 ==> data[..4] != [67, 70, 82, 50] && data[..4] != [67, 70, 82, 49]) ==>
              Decode(data, json) == json(data)
    ensures |data| < 12 ==> Decode(data, json) == json(data)
  {
  }
}
