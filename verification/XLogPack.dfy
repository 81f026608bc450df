/** The transaction log pack: the layout it is written in and the two ways of reading less of it. */
module XLogPacks {
  import opened Wrappers
  import opened Bytes
  import opened Codec
  import opened Fields
  import opened Records
  import opened IpText

  datatype XLogPack = XLogPack(
    endTime: I64, objHash: I32, service: I32, txid: I64, caller: I64, gxid: I64, elapsed: I32, error: I32,
    cpu: I32, sqlCount: I32, sqlTime: I32, ipaddr: string, kbytes: I32, status: I32, userid: I64,
    userAgent: I32, referer: I32, group: I32, apicallCount: I32, apicallTime: I32,
    // the fields below are present only in newer packs
    countryCode: Text, city: I32, xType: Byte, login: I32, desc: I32, webHash: I32, webTime: I32, hasDump: Byte,
    threadNameHash: I32, text1: Text, text2: Text, queuingHostHash: I32, queuingTime: I32,
    queuing2ndHostHash: I32, queuing2ndTime: I32, text3: Text, text4: Text, text5: Text, profileCount: I32,
    b3Mode: bool, profileSize: I32, discardType: Byte, ignoreGlobalConsequentSampling: bool)

  /** The fields every pack has. */
  const HEAD: seq<Kind> :=
    [KDecimal, KDecimal, KDecimal, KSigned(8), KSigned(8), KSigned(8), KDecimal, KDecimal, KDecimal, KDecimal,
     KDecimal, KBlob, KDecimal, KDecimal, KDecimal, KDecimal, KDecimal, KDecimal, KDecimal, KDecimal]

  /** The optional groups, each present only when something is left to read. */
  const GROUPS: seq<seq<Kind>> :=
    [[KText, KDecimal], [KByte], [KDecimal, KDecimal], [KDecimal, KDecimal], [KByte], [KDecimal], [KText, KText],
     [KDecimal, KDecimal, KDecimal, KDecimal], [KText, KText, KText], [KDecimal], [KBoolean],
     [KDecimal, KByte, KBoolean]]

  function HeadOf(x: XLogPack): seq<Field> {
    [Number(x.endTime), Number(x.objHash), Number(x.service), Number(x.txid), Number(x.caller), Number(x.gxid),
     Number(x.elapsed), Number(x.error), Number(x.cpu), Number(x.sqlCount), Number(x.sqlTime),
     BlobField(IpToBytes(x.ipaddr)), Number(x.kbytes), Number(x.status), Number(x.userid), Number(x.userAgent),
     Number(x.referer), Number(x.group), Number(x.apicallCount), Number(x.apicallTime)]
  }

  function GroupsOf(x: XLogPack): seq<seq<Field>> {
    [[TextField(x.countryCode), Number(x.city)], [Number(x.xType)], [Number(x.login), Number(x.desc)],
     [Number(x.webHash), Number(x.webTime)], [Number(x.hasDump)], [Number(x.threadNameHash)],
     [TextField(x.text1), TextField(x.text2)],
     [Number(x.queuingHostHash), Number(x.queuingTime), Number(x.queuing2ndHostHash), Number(x.queuing2ndTime)],
     [TextField(x.text3), TextField(x.text4), TextField(x.text5)], [Number(x.profileCount)], [Flag(x.b3Mode)],
     [Number(x.profileSize), Number(x.discardType), Flag(x.ignoreGlobalConsequentSampling)]]
  }

  // Reading

  function IpOf(f: Field): string {
    BytesToIp(DataOf(f))
  }

  /** The pack with the given fields; decimals are cut to the width of the pack's field. */
  function FromFields(h: seq<Field>, g: seq<seq<Field>>): XLogPack
    requires Shaped(HEAD, GROUPS, h, g)
  {
    XLogPack(
      LongOf(h[0]), IntOf(h[1]), IntOf(h[2]), LongOf(h[3]), LongOf(h[4]), LongOf(h[5]), IntOf(h[6]), IntOf(h[7]),
      IntOf(h[8]), IntOf(h[9]), IntOf(h[10]), IpOf(h[11]), IntOf(h[12]), IntOf(h[13]), LongOf(h[14]), IntOf(h[15]),
      IntOf(h[16]), IntOf(h[17]), IntOf(h[18]), IntOf(h[19]),
      TextOf(g[0][0]), IntOf(g[0][1]), ByteOf(g[1][0]), IntOf(g[2][0]), IntOf(g[2][1]),
      IntOf(g[3][0]), IntOf(g[3][1]), ByteOf(g[4][0]), IntOf(g[5][0]), TextOf(g[6][0]), TextOf(g[6][1]),
      IntOf(g[7][0]), IntOf(g[7][1]), IntOf(g[7][2]), IntOf(g[7][3]),
      TextOf(g[8][0]), TextOf(g[8][1]), TextOf(g[8][2]), IntOf(g[9][0]), FlagOf(g[10][0]),
      IntOf(g[11][0]), ByteOf(g[11][1]), FlagOf(g[11][2]))
  }

  lemma Widths()
    ensures KnownWidths(HEAD) && AllKnown(GROUPS)
  {
  }

  function ReadPack(s: Data): Result<XLogPack> {
    Widths();
    var (fields, rest) :- GetRecord(HEAD, GROUPS, s);
    RecordShape(HEAD, GROUPS, s);
    Ok(FromFields(fields.0, fields.1))
  }

  // Writing

  /** Texts are shorter than 2^31 bytes. */
  predicate Sized(x: XLogPack) {
    && |x.countryCode| < 0x8000_0000 && |x.text1| < 0x8000_0000 && |x.text2| < 0x8000_0000
    && |x.text3| < 0x8000_0000 && |x.text4| < 0x8000_0000 && |x.text5| < 0x8000_0000
  }

  lemma PackIsLaid(x: XLogPack)
    requires Sized(x)
    ensures Laid(HEAD, HeadOf(x), GROUPS, GroupsOf(x))
  {
    HeadIsLaid(x);
    GroupsAreLaid(x);
  }

  lemma HeadIsLaid(x: XLogPack)
    ensures AllWritable(HEAD, HeadOf(x))
  {
  }

  lemma GroupsAreLaid(x: XLogPack)
    requires Sized(x)
    ensures WritableGroups(GROUPS, GroupsOf(x))
  {
  }

  /** The blob up to the end of its `g`-th optional group. */
  function CutBlob(x: XLogPack, g: nat): Data
    requires Sized(x) && g <= |GROUPS|
  {
    PackIsLaid(x);
    PutRecord(HEAD, HeadOf(x), GROUPS, GroupsOf(x), g)
  }

  function ToBlob(x: XLogPack): Data
    requires Sized(x)
  {
    CutBlob(x, |GROUPS|)
  }

  // What the pack loses on the way

  /** The pack with the address text as it comes back. */
  function Normal(x: XLogPack): XLogPack {
    x.(ipaddr := BytesToIp(IpToBytes(x.ipaddr)))
  }

  /** The pack with every optional group from the `g`-th on at its defaults. */
  function Truncated(x: XLogPack, g: nat): XLogPack {
    XLogPack(
      x.endTime, x.objHash, x.service, x.txid, x.caller, x.gxid, x.elapsed, x.error, x.cpu, x.sqlCount, x.sqlTime,
      x.ipaddr, x.kbytes, x.status, x.userid, x.userAgent, x.referer, x.group, x.apicallCount, x.apicallTime,
      if g > 0 then x.countryCode else [], if g > 0 then x.city else 0,
      if g > 1 then x.xType else 0,
      if g > 2 then x.login else 0, if g > 2 then x.desc else 0,
      if g > 3 then x.webHash else 0, if g > 3 then x.webTime else 0,
      if g > 4 then x.hasDump else 0,
      if g > 5 then x.threadNameHash else 0,
      if g > 6 then x.text1 else [], if g > 6 then x.text2 else [],
      if g > 7 then x.queuingHostHash else 0, if g > 7 then x.queuingTime else 0,
      if g > 7 then x.queuing2ndHostHash else 0, if g > 7 then x.queuing2ndTime else 0,
      if g > 8 then x.text3 else [], if g > 8 then x.text4 else [], if g > 8 then x.text5 else [],
      if g > 9 then x.profileCount else 0,
      g > 10 && x.b3Mode,
      if g > 11 then x.profileSize else 0, if g > 11 then x.discardType else 0,
      g > 11 && x.ignoreGlobalConsequentSampling)
  }

  lemma FieldsOfPack(x: XLogPack)
    ensures FromFields(HeadOf(x), GroupsOf(x)) == Normal(x)
  {
  }

  lemma GroupsOfTruncated(x: XLogPack, g: nat)
    requires g <= |GROUPS|
    ensures GroupsOf(Truncated(x, g)) == GroupsOf(x)[..g] + DefaultGroups(GROUPS[g..])
    ensures HeadOf(Truncated(x, g)) == HeadOf(x)
  {
    forall i | 0 <= i < |GROUPS|
      ensures GroupsOf(Truncated(x, g))[i] == if i < g then GroupsOf(x)[i] else Defaults(GROUPS[i])
    {
      TruncatedGroup(x, g, i);
    }
  }

  lemma TruncatedGroup(x: XLogPack, g: nat, i: nat)
    requires g <= |GROUPS| && i < |GROUPS|
    ensures GroupsOf(Truncated(x, g))[i] == if i < g then GroupsOf(x)[i] else Defaults(GROUPS[i])
  {
    if i < g {
      KeptGroup(x, g, i);
    } else {
      DroppedGroup(x, g, i);
    }
  }

  lemma KeptGroup(x: XLogPack, g: nat, i: nat)
    requires i < g <= |GROUPS|
    ensures GroupsOf(Truncated(x, g))[i] == GroupsOf(x)[i]
  {
  }

  lemma DroppedGroup(x: XLogPack, g: nat, i: nat)
    requires g <= i < |GROUPS|
    ensures GroupsOf(Truncated(x, g))[i] == Defaults(GROUPS[i])
  {
    var fs := GroupsOf(Truncated(x, g))[i];
    assert |fs| == |GROUPS[i]|;
    forall j | 0 <= j < |fs|
      ensures fs[j] == Default(GROUPS[i][j])
    {
    }
  }

  // Reading undoes writing

  /** Reading a pack of which only the first `g` optional groups were written, as an older collector does:
      the rest is at its defaults. A complete pack may be followed by anything. */
  lemma ReadCutPack(x: XLogPack, g: nat, tail: Data)
    requires Sized(x) && g <= |GROUPS| && (g == |GROUPS| || tail == [])
    ensures ReadPack(CutBlob(x, g) + tail) == Ok(Normal(Truncated(x, g)))
  {
    Widths();
    PackIsLaid(x);
    RecordRoundTrip(HEAD, HeadOf(x), GROUPS, GroupsOf(x), g, tail);
    GroupsOfTruncated(x, g);
    FieldsOfPack(Truncated(x, g));
  }

  lemma NothingTruncated(x: XLogPack)
    ensures Truncated(x, |GROUPS|) == x
  {
  }

  /** A pack written for the cache is read back field for field exactly when its address text is empty or
      a canonical dotted quad. */
  lemma PackRoundTrip(x: XLogPack, tail: Data)
    requires Sized(x)
    ensures ReadPack(ToBlob(x) + tail) == Ok(x) <==> Canonical(x.ipaddr)
  {
    ReadCutPack(x, |GROUPS|, tail);
    NothingTruncated(x);
    IpRoundTrip(x.ipaddr);
  }

  /** Every pack that was ever read qualifies: the cache returns what the collector sent. */
  lemma ReadPacksAreCanonical(s: Data)
    requires ReadPack(s).Ok?
    ensures Canonical(ReadPack(s).value.ipaddr)
  {
    Widths();
    RecordShape(HEAD, GROUPS, s);
    AddressIsCanonical(GetRecord(HEAD, GROUPS, s).value.0.0[11]);
  }

  lemma AddressIsCanonical(f: Field)
    ensures Canonical(IpOf(f))
  {
    if f.BlobField? && |f.data| == 4 {
      assert IpOf(f) == Quad(f.data[0], f.data[1], f.data[2], f.data[3]);
    }
  }

  // Cutting a blob anywhere

  /** The blob ends after its head or after one of its optional groups. */
  ghost predicate AtBoundary(x: XLogPack, k: nat)
    requires Sized(x)
  {
    exists g: nat :: g <= |GROUPS| && k == |CutBlob(x, g)|
  }

  lemma CutAtBoundary(x: XLogPack, g: nat)
    requires Sized(x) && g <= |GROUPS|
    ensures |CutBlob(x, g)| <= |ToBlob(x)| && ToBlob(x)[..|CutBlob(x, g)|] == CutBlob(x, g)
  {
    PackIsLaid(x);
    RecordPrefix(HEAD, HeadOf(x), GROUPS, GroupsOf(x), g);
  }

  lemma ReadAtBoundary(x: XLogPack, g: nat)
    requires Sized(x) && g <= |GROUPS|
    ensures ReadPack(CutBlob(x, g)) == Ok(Normal(Truncated(x, g)))
  {
    ReadCutPack(x, g, []);
    assert CutBlob(x, g) + [] == CutBlob(x, g);
  }

  lemma CutElsewhere(x: XLogPack, k: nat)
    requires Sized(x) && k <= |ToBlob(x)| && !AtBoundary(x, k)
    ensures ReadPack(ToBlob(x)[..k]).Err?
  {
    Widths();
    PackIsLaid(x);
    RecordEndIsBoundary(x, k);
    RecordCut(HEAD, HeadOf(x), GROUPS, GroupsOf(x), k);
  }

  /** Cutting a blob short yields a pack exactly at the ends of the head and of the optional groups, and
      there it yields the pack with the remaining groups at their defaults; everywhere else it is an
      error, never a wrong pack. */
  lemma CutAnywhere(x: XLogPack, k: nat)
    requires Sized(x) && k <= |ToBlob(x)|
    ensures ReadPack(ToBlob(x)[..k]).Ok? <==> AtBoundary(x, k)
    ensures forall g: nat :: g <= |GROUPS| && k == |CutBlob(x, g)| ==>
              ReadPack(ToBlob(x)[..k]) == Ok(Normal(Truncated(x, g)))
  {
    forall g: nat | g <= |GROUPS| && k == |CutBlob(x, g)|
      ensures ReadPack(ToBlob(x)[..k]) == Ok(Normal(Truncated(x, g)))
    {
      CutAtBoundary(x, g);
      ReadAtBoundary(x, g);
    }
    if !AtBoundary(x, k) {
      CutElsewhere(x, k);
    }
  }

  lemma RecordEndIsBoundary(x: XLogPack, k: nat)
    requires Sized(x) && Laid(HEAD, HeadOf(x), GROUPS, GroupsOf(x))
    ensures AtRecordEnd(HEAD, HeadOf(x), GROUPS, GroupsOf(x), k) ==> AtBoundary(x, k)
  {
    if AtRecordEnd(HEAD, HeadOf(x), GROUPS, GroupsOf(x), k) {
      var g := WhichEnd(HEAD, HeadOf(x), GROUPS, GroupsOf(x), k);
      assert k == |CutBlob(x, g)|;
    }
  }

  // The writer and the reader of packs

  method WritePack(x: XLogPack) returns (blob: Data)
    requires Sized(x)
    ensures blob == ToBlob(x)
  {
    PackIsLaid(x);
    var w := new ScouterWriter();
    WriteRecord(w, HEAD, HeadOf(x), GROUPS, GroupsOf(x));
    blob := w.buf;
  }

  method ReadInner(blob: Data) returns (x: Result<XLogPack>)
    ensures x == ReadPack(blob)
  {
    Widths();
    var r := new ScouterReader(blob);
    var fields := ReadRecord(r, HEAD, GROUPS);
    if fields.Err? {
      return Err;
    }
    RecordShape(HEAD, GROUPS, blob);
    x := Ok(FromFields(fields.value.0, fields.value.1));
  }
}
