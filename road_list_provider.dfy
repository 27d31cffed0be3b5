/** The registry reader of `ROADListProvider`: every registry account holds one
    97-byte record, which is decoded by position into a mint account, an
    approval flag and a content identifier (CID) that is split over two
    byte ranges; the CID is then turned into a gateway link.

    The network fetch is not modelled: the fetched accounts come in as a
    sequence. Text decoding of the CID bytes (`Buffer.toString()`, UTF-8) comes
    in as the parameter `decode`, applied to each of the two CID pieces on its
    own, as the source does. */
module ROADListProvider {
  import opened BufferLayout

  /** Size of a registry record; the fetch asks only for accounts of this size. */
  const RecordSize: nat := 97

  /** How many leading bytes of `info1` are dropped before the CID starts. */
  const CidSkip: nat := 18

  /** The record schema: 32 mint bytes, one approval byte, two 32-byte info blocks. */
  const TokenMetaLayout: seq<Field> := [
    Field("mintAccount", U8Seq(32)),
    Field("approved", U8),
    Field("info1", U8Seq(32)),
    Field("info2", U8Seq(32))
  ]

  /** The decoded record, one component per field of `TokenMetaLayout`. */
  datatype TokenMeta = TokenMeta(mintAccount: seq<byte>, approved: byte, info1: seq<byte>, info2: seq<byte>)

  /** An account as the fetch returns it: its address and its raw data. */
  datatype ProgramAccount = ProgramAccount(pubkey: seq<byte>, data: seq<byte>)

  /** What the provider reports per token. `mintAccount` is the raw 32 bytes:
      the source only casts the decoded array to a string type. */
  datatype TokenMetaAccountData = TokenMetaAccountData(cid: string, approved: bool, mintAccount: seq<byte>)

  /** The fields of the layout sit at offsets 0, 32, 33 and 65 and together cover
      exactly 97 bytes. */
  lemma TokenMetaLayoutOffsets()
    ensures StructSpan(TokenMetaLayout) == RecordSize
    ensures OffsetOf(TokenMetaLayout, 0) == 0
    ensures OffsetOf(TokenMetaLayout, 1) == 32
    ensures OffsetOf(TokenMetaLayout, 2) == 33
    ensures OffsetOf(TokenMetaLayout, 3) == 65
  {
  }

  /** Decodes a record by position: mint bytes [0, 32), approval byte 32, `info1`
      bytes [33, 65) and `info2` bytes [65, 97). `DecodeTokenMetaIsLayoutDecode`
      shows that this is what decoding with `TokenMetaLayout` gives. */
  function DecodeTokenMeta(data: seq<byte>): (info: TokenMeta)
    requires |data| == RecordSize
    ensures WellShaped(info)
  {
    TokenMeta(data[0..32], data[32], data[33..65], data[65..97])
  }

  /** The decoded record as the list of field values, in layout order: the value
      at position i is the one `buffer-layout` stores under the property name
      `TokenMetaLayout[i].property`. */
  function Fields(info: TokenMeta): (vs: seq<FieldValue>)
  {
    [Bytes(info.mintAccount), Byte(info.approved), Bytes(info.info1), Bytes(info.info2)]
  }

  /** Decoding a record with `TokenMetaLayout` gives exactly the fields of
      `DecodeTokenMeta`: each field comes from its own byte range. */
  lemma DecodeTokenMetaIsLayoutDecode(data: seq<byte>)
    requires |data| == RecordSize
    ensures DecodeStruct(TokenMetaLayout, data, 0) == Fields(DecodeTokenMeta(data))
  {
    var fs, vs, ws := TokenMetaLayout, DecodeStruct(TokenMetaLayout, data, 0), Fields(DecodeTokenMeta(data));
    TokenMetaLayoutOffsets();
    forall i | 0 <= i < 4 ensures vs[i] == ws[i] {
      DecodeStructAt(fs, data, 0, i);
    }
  }

  /** A decoded record has the field sizes of the layout. */
  predicate WellShaped(info: TokenMeta)
  {
    |info.mintAccount| == 32 && |info.info1| == 32 && |info.info2| == 32
  }

  /** Writes a decoded record back with `TokenMetaLayout`. */
  function EncodeTokenMeta(info: TokenMeta): (data: seq<byte>)
  {
    EncodeStruct(Fields(info))
  }

  /** The layout reads every record byte exactly once: re-encoding a decoded
      record gives the record back byte for byte, and decoding an encoded
      record of the right field sizes gives the fields back. */
  lemma TokenMetaRoundTrip(data: seq<byte>, info: TokenMeta)
    requires |data| == RecordSize
    requires WellShaped(info)
    ensures EncodeTokenMeta(DecodeTokenMeta(data)) == data
    ensures |EncodeTokenMeta(info)| == RecordSize
    ensures DecodeTokenMeta(EncodeTokenMeta(info)) == info
  {
    TokenMetaLayoutOffsets();
    var fs := TokenMetaLayout;
    DecodeTokenMetaIsLayoutDecode(data);
    EncodeDecode(fs, data, 0);
    assert data[0..RecordSize] == data;

    var vs := Fields(info);
    var e := EncodeTokenMeta(info);
    assert Shaped(fs, vs);
    EncodeStructLength(fs, vs);
    assert e[0..RecordSize] == e;
    DecodeEncode(fs, vs, e, 0);
    DecodeTokenMetaIsLayoutDecode(e);
    assert Fields(DecodeTokenMeta(e)) == Fields(info);
  }

  /** JavaScript's `Boolean` applied to a number: false for 0 only. */
  function Boolean(n: byte): (b: bool)
    ensures !b <==> n == 0
  {
    n != 0
  }

  /** `formatTokenData`: decodes the account's record and assembles the token.
      The CID is the text of `info1` without its first 18 bytes, followed by
      the text of `info2`, so it comes from record bytes [51, 97) and is decoded
      in two pieces, [51, 65) and [65, 97). */
  function FormatTokenData(decode: seq<byte> -> string, account: ProgramAccount): (token: TokenMetaAccountData)
    requires |account.data| == RecordSize
    ensures token.mintAccount == account.data[0..32] && |token.mintAccount| == 32
    ensures token.approved <==> account.data[32] != 0
    ensures token.cid == decode(account.data[51..65]) + decode(account.data[65..97])
  {
    var info := DecodeTokenMeta(account.data);
    var rawCid1 := info.info1[CidSkip..];
    var rawCid2 := info.info2;
    var cid := decode(rawCid1) + decode(rawCid2);
    TokenMetaAccountData(cid, Boolean(info.approved), info.mintAccount)
  }

  /** The CID bytes are the last 14 bytes of `info1` and all 32 of `info2`:
      46 bytes, which are record bytes [51, 97). */
  lemma CidBytes(data: seq<byte>)
    requires |data| == RecordSize
    ensures var info := DecodeTokenMeta(data);
      && |info.info1[CidSkip..]| == 14
      && info.info1[CidSkip..] == data[51..65]
      && info.info1[CidSkip..] + info.info2 == data[51..97]
      && |data[51..97]| == 46
  {
  }

  /** The token depends only on record bytes [0, 33) and [51, 97): the first 18
      bytes of `info1` and the account address are ignored. */
  lemma {:induction false} DiscardedBytesIgnored(decode: seq<byte> -> string, a: ProgramAccount, b: ProgramAccount)
    requires |a.data| == RecordSize && |b.data| == RecordSize
    requires a.data[..33] == b.data[..33]
    requires a.data[51..] == b.data[51..]
    ensures FormatTokenData(decode, a) == FormatTokenData(decode, b)
  {
    assert a.data[0..32] == a.data[..33][..32] == b.data[..33][..32] == b.data[0..32];
    assert a.data[32] == a.data[..33][32] == b.data[..33][32] == b.data[32];
    assert a.data[51..65] == a.data[51..][..14] == b.data[51..][..14] == b.data[51..65];
    assert a.data[65..97] == a.data[51..][14..] == b.data[51..][14..] == b.data[65..97];
  }

  /** Rewriting one of the 18 discarded bytes of `info1` changes nothing. */
  lemma DiscardedByteUpdate(decode: seq<byte> -> string, a: ProgramAccount, i: nat, v: byte)
    requires |a.data| == RecordSize
    requires 33 <= i < 33 + CidSkip
    ensures FormatTokenData(decode, a.(data := a.data[i := v])) == FormatTokenData(decode, a)
  {
    var b := a.(data := a.data[i := v]);
    assert b.data[..33] == a.data[..33];
    assert b.data[51..] == a.data[51..];
    DiscardedBytesIgnored(decode, b, a);
  }

  /** A mint byte reaches only `mintAccount`, at the same position. */
  lemma MintByteUpdate(decode: seq<byte> -> string, a: ProgramAccount, i: nat, v: byte)
    requires |a.data| == RecordSize
    requires i < 32
    ensures var t, u := FormatTokenData(decode, a), FormatTokenData(decode, a.(data := a.data[i := v]));
      u.mintAccount == t.mintAccount[i := v] && u.approved == t.approved && u.cid == t.cid
  {
  }

  /** The approval byte reaches only `approved`, which is true exactly when the
      new byte is nonzero. */
  lemma ApprovedByteUpdate(decode: seq<byte> -> string, a: ProgramAccount, v: byte)
    requires |a.data| == RecordSize
    ensures var t, u := FormatTokenData(decode, a), FormatTokenData(decode, a.(data := a.data[32 := v]));
      u.mintAccount == t.mintAccount && u.cid == t.cid && (u.approved <==> v != 0)
  {
  }

  /** A CID byte leaves `mintAccount` and `approved` alone. */
  lemma CidByteUpdate(decode: seq<byte> -> string, a: ProgramAccount, i: nat, v: byte)
    requires |a.data| == RecordSize
    requires 51 <= i < RecordSize
    ensures var t, u := FormatTokenData(decode, a), FormatTokenData(decode, a.(data := a.data[i := v]));
      u.mintAccount == t.mintAccount && u.approved == t.approved
  {
  }

  /** The characters bytes below 128 stand for, one character per byte. */
  function AsciiText(bs: seq<byte>): (s: string)
  {
    seq(|bs|, i requires 0 <= i < |bs| => bs[i] as char)
  }

  predicate IsAscii(bs: seq<byte>)
  {
    forall i :: 0 <= i < |bs| ==> bs[i] < 128
  }

  /** A decoder that reads ASCII bytes as themselves, as UTF-8 decoding does. */
  ghost predicate DecodesAsciiVerbatim(decode: seq<byte> -> string)
  {
    forall bs :: IsAscii(bs) ==> decode(bs) == AsciiText(bs)
  }

  /** For an ASCII CID, decoding the two pieces separately is the same as reading
      bytes [51, 97) as one: the CID has 46 characters, one per byte, so every
      CID byte shows in it and a different CID byte gives a different CID. */
  lemma AsciiCid(decode: seq<byte> -> string, a: ProgramAccount)
    requires DecodesAsciiVerbatim(decode)
    requires |a.data| == RecordSize
    requires IsAscii(a.data[51..97])
    ensures FormatTokenData(decode, a).cid == AsciiText(a.data[51..97])
    ensures |FormatTokenData(decode, a).cid| == 46
  {
    var p, q := a.data[51..65], a.data[65..97];
    assert a.data[51..97] == p + q;
    forall i | 0 <= i < |p| ensures p[i] < 128 {
      assert p[i] == a.data[51..97][i];
    }
    forall i | 0 <= i < |q| ensures q[i] < 128 {
      assert q[i] == a.data[51..97][14 + i];
    }
    assert AsciiText(p + q) == AsciiText(p) + AsciiText(q);
  }

  /** A record with zero mint bytes, approval byte 1, 18 zero bytes, fourteen
      'A's and thirty-two 'B's. */
  function MarkerRecord(): (data: seq<byte>)
  {
    seq(32, _ => 0) + [1] + seq(18, _ => 0) + seq(14, _ => 65) + seq(32, _ => 66)
  }

  /** The marker record decodes to an approved token whose CID is fourteen 'A's
      then thirty-two 'B's, and whose mint account is 32 zero bytes. */
  lemma MarkerRecordCid(decode: seq<byte> -> string, pubkey: seq<byte>)
    requires DecodesAsciiVerbatim(decode)
    ensures |MarkerRecord()| == RecordSize
    ensures var token := FormatTokenData(decode, ProgramAccount(pubkey, MarkerRecord()));
      && token.cid == "AAAAAAAAAAAAAA" + "BBBBBBBBBBBBBBBBBBBBBBBBBBBBBBBB"
      && token.approved
      && token.mintAccount == seq(32, _ => 0)
  {
    var data := MarkerRecord();
    assert IsAscii(data[51..97]);
    AsciiCid(decode, ProgramAccount(pubkey, data));
    assert data[51..97] == seq(14, _ => 65) + seq(32, _ => 66);
  }

  /** Every fetched account carries a full record (the fetch filters on size). */
  predicate AllRecordsSized(accounts: seq<ProgramAccount>)
  {
    forall i :: 0 <= i < |accounts| ==> |accounts[i].data| == RecordSize
  }

  /** `getTokenList` after the fetch: one token per fetched account. */
  function GetTokenList(decode: seq<byte> -> string, accounts: seq<ProgramAccount>): (list: seq<TokenMetaAccountData>)
    requires AllRecordsSized(accounts)
    ensures |list| == |accounts|
    decreases |accounts|
  {
    if accounts == [] then []
    else [FormatTokenData(decode, accounts[0])] + GetTokenList(decode, accounts[1..])
  }

  /** The list keeps fetch order: token i is the decoding of fetched account i. */
  lemma {:induction false} GetTokenListElements(decode: seq<byte> -> string, accounts: seq<ProgramAccount>)
    requires AllRecordsSized(accounts)
    ensures forall i :: 0 <= i < |accounts| ==>
      GetTokenList(decode, accounts)[i] == FormatTokenData(decode, accounts[i])
    decreases |accounts|
  {
    if accounts != [] {
      var rest := accounts[1..];
      GetTokenListElements(decode, rest);
      GetTokenListStep(decode, accounts);
      forall i | 1 <= i < |accounts|
        ensures GetTokenList(decode, accounts)[i] == FormatTokenData(decode, accounts[i])
      {
        assert rest[i - 1] == accounts[i];
      }
    }
  }

  /** A non-empty batch decodes as its first account followed by the rest. */
  lemma GetTokenListStep(decode: seq<byte> -> string, accounts: seq<ProgramAccount>)
    requires AllRecordsSized(accounts) && accounts != []
    ensures GetTokenList(decode, accounts)
         == [FormatTokenData(decode, accounts[0])] + GetTokenList(decode, accounts[1..])
  {
  }

  /** Decoding a batch is decoding its parts and putting the results side by
      side: each record is decoded on its own and keeps its place. */
  lemma {:induction false} GetTokenListAppend(decode: seq<byte> -> string, xs: seq<ProgramAccount>, ys: seq<ProgramAccount>)
    requires AllRecordsSized(xs) && AllRecordsSized(ys)
    ensures AllRecordsSized(xs + ys)
    ensures GetTokenList(decode, xs + ys) == GetTokenList(decode, xs) + GetTokenList(decode, ys)
  {
    if xs == [] {
      assert xs + ys == ys;
    } else {
      var zs := xs + ys;
      assert zs[0] == xs[0];
      assert zs[1..] == xs[1..] + ys;
      GetTokenListAppend(decode, xs[1..], ys);
      GetTokenListStep(decode, zs);
      GetTokenListStep(decode, xs);
      var head, rest := [FormatTokenData(decode, xs[0])], GetTokenList(decode, xs[1..]);
      assert head + (rest + GetTokenList(decode, ys)) == (head + rest) + GetTokenList(decode, ys);
    }
  }

  /** The link for one CID under a gateway. */
  function Link(gateway: string, cid: string): (link: string)
    ensures |link| == |gateway| + 1 + |cid|
    ensures link[..|gateway| + 1] == gateway + "/" && link[|gateway| + 1..] == cid
  {
    gateway + "/" + cid
  }

  /** The CID a link was built from: what follows the gateway and its slash. */
  function CidOfLink(gateway: string, link: string): (cid: string)
    requires |gateway| < |link|
  {
    link[|gateway| + 1..]
  }

  /** A link starts with the gateway and a slash, and gives its CID back. */
  lemma LinkParts(gateway: string, cid: string)
    ensures |Link(gateway, cid)| == |gateway| + 1 + |cid|
    ensures Link(gateway, cid)[..|gateway| + 1] == gateway + "/"
    ensures CidOfLink(gateway, Link(gateway, cid)) == cid
  {
  }

  /** The link step of `getTokenLinks`: one link per token, in list order. */
  function TokenLinks(gateway: string, list: seq<TokenMetaAccountData>): (links: seq<string>)
    ensures |links| == |list|
    ensures forall i :: 0 <= i < |list| ==> links[i] == Link(gateway, list[i].cid)
    decreases |list|
  {
    if list == [] then []
    else [Link(gateway, list[0].cid)] + TokenLinks(gateway, list[1..])
  }

  /** Each link carries the gateway prefix, and the CIDs read back from the
      links are the list's CIDs in order. */
  lemma {:induction false} TokenLinksRecoverCids(gateway: string, list: seq<TokenMetaAccountData>, i: nat)
    requires i < |list|
    ensures var links := TokenLinks(gateway, list);
      && |gateway| < |links[i]|
      && links[i][..|gateway| + 1] == gateway + "/"
      && CidOfLink(gateway, links[i]) == list[i].cid
  {
    LinkParts(gateway, list[i].cid);
  }

  /** `getTokenLinks` after the fetch: a link for every fetched account, in
      fetch order, built from that account's CID bytes. */
  function GetTokenLinks(decode: seq<byte> -> string, gateway: string, accounts: seq<ProgramAccount>): (links: seq<string>)
    requires AllRecordsSized(accounts)
    ensures |links| == |accounts|
    ensures forall i :: 0 <= i < |accounts| ==>
      links[i] == gateway + "/" + decode(accounts[i].data[51..65]) + decode(accounts[i].data[65..97])
  {
    var list := GetTokenList(decode, accounts);
    GetTokenListElements(decode, accounts);
    TokenLinks(gateway, list)
  }

  /** The link example: gateway "https://example/ipfs" and CID "XYZ". */
  lemma ExampleLink(token: TokenMetaAccountData)
    requires token.cid == "XYZ"
    ensures TokenLinks("https://example/ipfs", [token]) == ["https://example/ipfs/XYZ"]
  {
    assert Link("https://example/ipfs", "XYZ") == "https://example/ipfs/XYZ";
  }
}
