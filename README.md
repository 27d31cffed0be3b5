# ROAD token registry reader, modelled in Dafny

`ROADListProvider` reads a token registry kept on Solana. Each account owned by
the registry program holds one 97-byte record. The provider decodes each record
by position into:

- a 32-byte mint account;
- an approval flag, which is one byte where any nonzero value means approved;
- two 32-byte info blocks.

The content identifier (CID) is split across the two info blocks. Its text is
the last 14 bytes of `info1` followed by all 32 bytes of `info2`, so it comes
from record bytes [51, 97). The provider turns each CID into a link
`gateway + "/" + cid`.

The model is pure functions over sequences plus lemmas. It has two modules:

- `BufferLayout` (`buffer_layout.dfy`) covers the part of the `buffer-layout`
  library that the record schema uses: a struct of `u8()` and `seq(u8(), n)`
  fields, decoded field after field at running offsets. It also has an encoder,
  which serves as the decoder's partner. The round-trip lemmas show that a
  struct covers its byte range exactly once, with no padding.
- `ROADListProvider` (`road_list_provider.dfy`) holds the record schema,
  `formatTokenData`, and the two list operations once the fetch is taken away
  (`getTokenList` and `getTokenLinks`).

The text decoding done by `Buffer.toString()` (UTF-8) is the parameter
`decode: seq<byte> -> string`. It is applied to the two CID pieces one at a
time, as the source does. The source never decodes the 46 bytes as a single
unit, and the model does not either: a multi-byte character split across the
boundary would decode differently. The predicate `DecodesAsciiVerbatim` states
the one fact about UTF-8 that the model uses: ASCII bytes decode to themselves.

Two points where the model follows what the code does at run time:

- `mintAccount` is only cast to `string` by the type system. At run time it
  stays the decoded array of 32 numbers, so the model keeps the raw bytes. It
  does not apply a public-key text encoding.
- The code never checks a record's length. It relies on the fetch's
  `dataSize: 97` filter, so `|data| == 97` is a precondition and a wrong-sized
  record has no error path in the model.

## Model

| member | source | states |
|---|---|---|
| `BufferLayout.DecodeField` | src/providers/ROADListProvider.ts:5-8 | a `u8()` field decodes to one byte and a `seq(u8(), n)` field to exactly n bytes |
| `BufferLayout.OffsetOf` | src/providers/ROADListProvider.ts:4-9 | every field of a struct starts and ends inside the struct's span |
| `BufferLayout.OffsetsAreContiguous` | src/providers/ROADListProvider.ts:4-9 | each field starts exactly where the previous one ends (no padding) |
| `BufferLayout.LastOffsetIsSpan` | src/providers/ROADListProvider.ts:4-9 | the end of the last field is the span of the whole struct |
| `BufferLayout.DecodeStruct` | src/providers/ROADListProvider.ts:37 | decoding gives one value per field, each of its field's shape (one byte for `u8`, n bytes for `seq(u8, n)`) |
| `BufferLayout.DecodeStructAt` | src/providers/ROADListProvider.ts:37 | field i of the decoded struct is the field read at the struct's offset plus `OffsetOf(i)`, so fields are read in declaration order at running offsets |
| `BufferLayout.EncodeStructLength` | src/providers/ROADListProvider.ts:4-9 | values shaped like the fields encode to exactly the struct's span |
| `BufferLayout.EncodeDecode` | src/providers/ROADListProvider.ts:4-9 | re-encoding a decoded struct gives back exactly the bytes it covers |
| `BufferLayout.DecodeEncode` | src/providers/ROADListProvider.ts:4-9 | decoding the encoding of well-shaped values gives those values back, wherever they sit in the buffer |
| `ROADListProvider.TokenMetaLayout` | src/providers/ROADListProvider.ts:4-9 | the record schema: `mintAccount` (32 bytes), `approved` (one byte), `info1` (32 bytes), `info2` (32 bytes), in declaration order |
| `ROADListProvider.DecodeTokenMeta` | src/providers/ROADListProvider.ts:36-37 | a 97-byte record decodes to a 32-byte `mintAccount`, a one-byte `approved` and 32-byte `info1` and `info2`; `DecodeTokenMetaIsLayoutDecode` pins down their contents |
| `ROADListProvider.TokenMetaLayoutOffsets` | src/providers/ROADListProvider.ts:4-9 | the schema's fields start at offsets 0, 32, 33 and 65 and span 97 bytes in total |
| `ROADListProvider.DecodeTokenMetaIsLayoutDecode` | src/providers/ROADListProvider.ts:36-37 | decoding a 97-byte record with the schema gives mintAccount = bytes [0,32), approved = byte 32, info1 = bytes [33,65), info2 = bytes [65,97) |
| `ROADListProvider.TokenMetaRoundTrip` | src/providers/ROADListProvider.ts:4-9 | decoding a record and re-encoding it gives the record back byte for byte; decoding an encoded record with 32-byte fields gives the fields back |
| `ROADListProvider.FormatTokenData` | src/providers/ROADListProvider.ts:32-49 | mintAccount is record bytes [0,32) (32 bytes); approved is true iff byte 32 is nonzero; cid is the decoded text of bytes [51,65) followed by the decoded text of bytes [65,97) |
| `ROADListProvider.CidBytes` | src/providers/ROADListProvider.ts:38-42 | the CID bytes are info1 without its first 18 bytes (14 bytes) plus info2: 46 bytes, equal to record bytes [51,97) |
| `ROADListProvider.DiscardedBytesIgnored` | src/providers/ROADListProvider.ts:36-47 | two records that agree on bytes [0,33) and [51,97) give the same token, whatever their bytes 33..50 and account addresses |
| `ROADListProvider.DiscardedByteUpdate` | src/providers/ROADListProvider.ts:38 | changing any one of record bytes 33..50 leaves the token unchanged |
| `ROADListProvider.MintByteUpdate` | src/providers/ROADListProvider.ts:44-47 | changing record byte i < 32 changes only mintAccount, and only at position i |
| `ROADListProvider.ApprovedByteUpdate` | src/providers/ROADListProvider.ts:46 | changing byte 32 changes only approved, which becomes true iff the new byte is nonzero |
| `ROADListProvider.CidByteUpdate` | src/providers/ROADListProvider.ts:38-47 | changing a byte in [51,97) leaves mintAccount and approved unchanged |
| `ROADListProvider.AsciiCid` | src/providers/ROADListProvider.ts:41-42 | with a decoder that reads ASCII verbatim and ASCII CID bytes, the cid is the 46 characters of record bytes [51,97), one per byte |
| `ROADListProvider.MarkerRecordCid` | src/providers/ROADListProvider.ts:32-49 | a record with 18 filler bytes, 14 'A's and 32 'B's in its info blocks and approval byte 1 gives cid "AAAAAAAAAAAAAA" + "BBBBBBBBBBBBBBBBBBBBBBBBBBBBBBBB", approved true, and zero mint bytes |
| `ROADListProvider.Boolean` | src/providers/ROADListProvider.ts:46 | JavaScript truthiness of a number: false exactly for 0 |
| `ROADListProvider.GetTokenList` | src/providers/ROADListProvider.ts:60 | one token per fetched account: the list is as long as the fetch result (the empty batch gives the empty list) |
| `ROADListProvider.GetTokenListElements` | src/providers/ROADListProvider.ts:60 | the list keeps fetch order: token i is `formatTokenData` of fetched account i |
| `ROADListProvider.GetTokenListAppend` | src/providers/ROADListProvider.ts:60 | decoding a concatenated batch is concatenating the decoded parts: records are decoded independently and keep their places |
| `ROADListProvider.Link` | src/providers/ROADListProvider.ts:66 | the link is `gateway + "/" + cid`: it starts with the gateway and a slash, the rest is the cid, and its length is the sum of the parts |
| `ROADListProvider.LinkParts` | src/providers/ROADListProvider.ts:66 | a link is the gateway, a slash and the cid: it has the prefix gateway + "/" and gives its cid back after that prefix |
| `ROADListProvider.TokenLinks` | src/providers/ROADListProvider.ts:66 | one link per token, same length and order: link i is gateway + "/" + cid of token i |
| `ROADListProvider.TokenLinksRecoverCids` | src/providers/ROADListProvider.ts:66 | every link starts with gateway + "/", and the text after it is the cid of the token at the same position |
| `ROADListProvider.GetTokenLinks` | src/providers/ROADListProvider.ts:63-66 | one link per fetched account, in fetch order: link i is gateway + "/" + decoded bytes [51,65) + decoded bytes [65,97) of account i |
| `ROADListProvider.ExampleLink` | src/providers/ROADListProvider.ts:66 | gateway "https://example/ipfs" and cid "XYZ" give the link "https://example/ipfs/XYZ" |

## Left out

- The `Connection` and the `getProgramAccounts` call (src/providers/ROADListProvider.ts:27, 52-58), including `async`/`await`. These are network I/O. The fetched accounts are a sequence given as input, and the size filter shows up as the precondition `AllRecordsSized`.
- The base58 parsing in `new PublicKey(PROGRAM_ID)`, and the `NETWORK`, `PROGRAM_ID` and `IPFS_GATEWAY` constants (lines 17-19, 28). These are configuration and foreign library code. The gateway is a string parameter.
- The provider's three fields (lines 22-30). They are set once in the constructor and never updated, so the model has no class. The only field it uses, the gateway, is passed as a parameter.
- The UTF-8 decoding inside `Buffer.toString()` (line 42). It is the uninterpreted `decode` parameter. Its only assumed property is that ASCII decodes verbatim, and only `AsciiCid` and `MarkerRecordCid` assume it.
- What `buffer-layout` does with buffers shorter than the struct (it throws). The record size is a precondition because the fetch filter guarantees it. Only the two field kinds the schema uses (`u8` and `seq(u8(), n)`) are modelled, not the rest of that library.
- `Buffer.from(array)` at line 42 keeping only the low 8 bits of each number. Every value here is already a byte, so this has no effect. (`Buffer.from(data)` at line 37 only copies a `Buffer`, which the model does not distinguish from the original bytes.)
- CidByteUpdate: does not state that the cid changes. Whether it does depends on the text decoder; `AsciiCid` shows that, for ASCII CID bytes, every CID byte appears in the cid.
