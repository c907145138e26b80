/** Decoding a list of message headers into one parameter map. Parsing of bytes is a parameter. */
module Decoder {
  import opened Options
  import opened Values
  import opened Naming
  import opened Flatten
  import opened LeafKeys
  import opened Battery

  type Bytes = seq<bv8>

  datatype Header = Header(pdata: Bytes, src: int, encType: int, cmdFunc: int, cmdId: int, seqNo: bv32)

  datatype MessageKind = PropertyUpload | CmsHeartbeat | BmsHeartbeat

  /** A decoded message; `num` is the battery pack number, zero when it is not set. */
  datatype Message = Message(num: nat, fields: seq<Field>)

  /** The library parsers: `json` answers for a JSON object, `proto` for a message of a known kind. */
  datatype Parsers = Parsers(json: Bytes -> Option<Params>, proto: (MessageKind, Bytes) -> Option<Message>)

  const BMS_HEARTBEAT_COMMANDS: set<(int, int)> := {
    (3, 1), (3, 2), (3, 30), (3, 50),
    (32, 1), (32, 3), (32, 50), (32, 51), (32, 52),
    (254, 24), (254, 25), (254, 26), (254, 27), (254, 28), (254, 29), (254, 30)
  }

  function NewMessageFor(cmdFunc: int, cmdId: int): Option<MessageKind> {
    if cmdFunc == 254 && (cmdId == 21 || cmdId == 22) then Some(PropertyUpload)
    else if cmdFunc == 32 && cmdId == 2 then Some(CmsHeartbeat)
    else if (cmdFunc, cmdId) in BMS_HEARTBEAT_COMMANDS then Some(BmsHeartbeat)
    else None
  }

  function MessageParams(kind: MessageKind, m: Message): Params {
    match kind
    case BmsHeartbeat => Flat(m.fields, PackPrefix(m.num), false)
    case CmsHeartbeat => Flat(m.fields, "", true)
    case PropertyUpload => Flat(m.fields, "", false)
  }

  datatype PdataResult = Unsupported | Malformed | Decoded(params: Params)

  function PdataOutcome(p: Parsers, cmdFunc: int, cmdId: int, pdata: Bytes): PdataResult {
    match NewMessageFor(cmdFunc, cmdId)
    case None => Unsupported
    case Some(kind) =>
      match p.proto(kind, pdata)
      case None => Malformed
      case Some(m) => Decoded(MessageParams(kind, m))
  }

  lemma PdataByCommand(p: Parsers, cmdFunc: int, cmdId: int, pdata: Bytes)
    ensures var r := PdataOutcome(p, cmdFunc, cmdId, pdata);
      && (r.Unsupported? <==> forall kind :: !IsCommand(kind, cmdFunc, cmdId))
      && (forall kind | IsCommand(kind, cmdFunc, cmdId) ::
            r == match p.proto(kind, pdata) case Some(m) => Decoded(MessageParams(kind, m)) case None => Malformed)
  {
    forall kind ensures IsCommand(kind, cmdFunc, cmdId) <==> NewMessageFor(cmdFunc, cmdId) == Some(kind) {
    }
    match NewMessageFor(cmdFunc, cmdId) {
      case Some(kind) => assert IsCommand(kind, cmdFunc, cmdId);
      case None =>
    }
  }

  /** What the schema guarantees of a message of this kind: field names are distinct and hold no dot,
      for the heartbeat with two wrappers also across the wrappers. */
  predicate WellFormed(kind: MessageKind, m: Message) {
    WellNamed(if kind.CmsHeartbeat? then Hoisted(m.fields) else m.fields)
  }

  /** The parameters of a message do not depend on the order in which its fields are visited. */
  lemma VisitingOrderIrrelevant(kind: MessageKind, m: Message, fields: seq<Field>)
    requires WellFormed(kind, m) && Shuffled(m.fields, fields)
    ensures MessageParams(kind, m.(fields := fields)) == MessageParams(kind, m)
    ensures |MessageParams(kind, m)| == |Leaves(m.fields)|
  {
    match kind {
      case CmsHeartbeat =>
        OneEntryPerInlinedLeaf(m.fields, "");
        OrderIrrelevant(m.fields, "", true);
      case BmsHeartbeat =>
        OneEntryPerLeaf(m.fields, PackPrefix(m.num));
        OrderIrrelevant(m.fields, PackPrefix(m.num), false);
      case PropertyUpload =>
        OneEntryPerLeaf(m.fields, "");
        OrderIrrelevant(m.fields, "", false);
    }
  }

  /** Battery reports with different pack numbers share no parameter and no metric name. */
  lemma PackReportsStayApart(one: Message, other: Message, k: string, l: string)
    requires one.num != other.num
    requires k in MessageParams(BmsHeartbeat, one) && l in MessageParams(BmsHeartbeat, other)
    ensures k != l && MetricTail(k) != MetricTail(l)
  {
    FlatsStayApart(one.num, one.fields, other.num, other.fields, k, l);
  }

  /** The two wrappers of the CMS report leave no trace in the parameters. */
  lemma CmsWrappersVanish(num: nat, f: Field, g: Field)
    requires f.value.MessageField? && g.value.MessageField?
    requires WellFormed(CmsHeartbeat, Message(num, [f, g]))
    ensures MessageParams(CmsHeartbeat, Message(num, [f, g])) ==
            MessageParams(PropertyUpload, Message(num, f.value.fields + g.value.fields))
  {
    TwoWrappers(f, g, "");
  }

  /** The command pairs that carry each kind of message, as the devices use them. */
  predicate IsCommand(kind: MessageKind, cmdFunc: int, cmdId: int) {
    match kind
    case PropertyUpload => cmdFunc == 254 && 21 <= cmdId <= 22
    case CmsHeartbeat => cmdFunc == 32 && cmdId == 2
    case BmsHeartbeat =>
      match cmdFunc
      case 3 => cmdId == 1 || cmdId == 2 || cmdId == 30 || cmdId == 50
      case 32 => cmdId == 1 || cmdId == 3 || 50 <= cmdId <= 52
      case 254 => 24 <= cmdId <= 30
      case _ => false
  }

  /** The parameters are these leaves, each under its dotted path behind the prefix, and nothing else. */
  predicate HoldsLeaves(params: Params, prefix: string, leaves: seq<Leaf>) {
    |params| == |leaves| && forall i | 0 <= i < |leaves| :: HoldsLeaf(params, prefix, leaves[i])
  }

  /** What a message of each kind becomes: a property upload its leaves under their full paths, a CMS
      report those without the wrapper names, a battery report those behind `bms`, pack number, dot. */
  lemma ParamsAreLeaves(kind: MessageKind, m: Message)
    requires WellFormed(kind, m)
    ensures kind.PropertyUpload? ==> HoldsLeaves(MessageParams(kind, m), "", Leaves(m.fields))
    ensures kind.CmsHeartbeat? ==> HoldsLeaves(MessageParams(kind, m), "", Leaves(Hoisted(m.fields)))
    ensures kind.BmsHeartbeat? ==> HoldsLeaves(MessageParams(kind, m), "bms." + Decimal(m.num) + ".", Leaves(m.fields))
  {
    match kind {
      case PropertyUpload => OneEntryPerLeaf(m.fields, "");
      case CmsHeartbeat =>
        OneEntryPerInlinedLeaf(m.fields, "");
        OneEntryPerLeaf(Hoisted(m.fields), "");
      case BmsHeartbeat => OneEntryPerLeaf(m.fields, PackPrefix(m.num));
    }
  }

  method DecodeProtobufPdata(p: Parsers, cmdFunc: int, cmdId: int, pdata: Bytes) returns (r: PdataResult)
    ensures r == PdataOutcome(p, cmdFunc, cmdId, pdata)
    ensures r.Unsupported? <==> forall kind :: !IsCommand(kind, cmdFunc, cmdId)
    ensures forall kind | IsCommand(kind, cmdFunc, cmdId) :: r.Decoded? <==> p.proto(kind, pdata).Some?
    ensures forall kind | IsCommand(kind, cmdFunc, cmdId) && r.Decoded? ::
              r.params == MessageParams(kind, p.proto(kind, pdata).value)
  {
    PdataByCommand(p, cmdFunc, cmdId, pdata);
    var kind := NewMessageFor(cmdFunc, cmdId);
    if kind.None? { return Unsupported; }
    var parsed := p.proto(kind.value, pdata);
    if parsed.None? { return Malformed; }
    var m := parsed.value;
    var params := new ParamMap(map[]);
    match kind.value {
      case BmsHeartbeat => FlattenMessage(m.fields, "bms." + Decimal(m.num) + ".", false, params);
      case CmsHeartbeat => FlattenMessage(m.fields, "", true, params);
      case PropertyUpload => FlattenMessage(m.fields, "", false, params);
    }
    return Decoded(params.entries);
  }

  // ---------------------------------------------------------------------------
  // Encryption
  // ---------------------------------------------------------------------------

  function SeqByte(seqNo: bv32): bv8 { (seqNo & 0xFF) as bv8 }

  /** The key is what remains of the 32 bits beyond a multiple of 256; and as negative numbers are
      complements, theirs is the complement of the positive number's key. */
  lemma SeqByteIsLowByte(seqNo: bv32)
    ensures seqNo == (seqNo / 256) * 256 + SeqByte(seqNo) as bv32
    ensures SeqByte(0 - seqNo) == 0 - SeqByte(seqNo)
  {
  }

  function Xor(data: Bytes, key: bv8): Bytes { seq(|data|, i requires 0 <= i < |data| => data[i] ^ key) }

  method XorDecrypt(data: Bytes, seqNo: bv32) returns (plain: Bytes)
    ensures plain == Xor(data, SeqByte(seqNo))
    ensures |plain| == |data|
    ensures forall i | 0 <= i < |data| :: plain[i] == data[i] ^ ((seqNo & 0xFF) as bv8)
  {
    if |data| == 0 { return data; }
    var result := new bv8[|data|];
    var seqByte := SeqByte(seqNo);
    var i := 0;
    while i < |data|
      invariant 0 <= i <= |data|
      invariant forall k | 0 <= k < i :: result[k] == data[k] ^ seqByte
    {
      result[i] := data[i] ^ seqByte;
      i := i + 1;
    }
    return result[..];
  }

  predicate Encrypted(h: Header) { h.encType == 1 && h.seqNo != 0 && h.src != 32 }

  function PlainPdata(h: Header): Bytes { if Encrypted(h) then Xor(h.pdata, SeqByte(h.seqNo)) else h.pdata }

  /** What a device does to send a plain header encrypted. */
  function Encrypt(h: Header): Header { h.(pdata := Xor(h.pdata, SeqByte(h.seqNo)), encType := 1) }

  lemma XorByte(b: bv8, key: bv8)
    ensures (b ^ key) ^ key == b
    ensures b ^ key == b <==> key == 0
  {
  }

  lemma XorTwice(data: Bytes, key: bv8)
    ensures Xor(Xor(data, key), key) == data
  {
  }

  lemma XorChanges(data: Bytes, key: bv8)
    ensures Xor(data, key) == data <==> data == [] || key == 0
  {
    forall i | 0 <= i < |data| ensures Xor(data, key)[i] == data[i] <==> key == 0 {
      XorByte(data[i], key);
    }
    assert data != [] && key != 0 ==> Xor(data, key)[0] != data[0];
  }

  /** Encrypting is undone exactly when the header is not from source 32, or nothing was changed in
      the first place. A zero sequence number is harmless: its key is zero too. */
  lemma EncryptionIsUndone(h: Header)
    requires h.encType != 1
    ensures PlainPdata(Encrypt(h)) == PlainPdata(h) <==> h.src != 32 || h.pdata == [] || SeqByte(h.seqNo) == 0
  {
    var key := SeqByte(h.seqNo);
    XorTwice(h.pdata, key);
    XorChanges(h.pdata, key);
  }

  // ---------------------------------------------------------------------------
  // Merging the headers
  // ---------------------------------------------------------------------------

  function HeaderParams(p: Parsers, h: Header): Option<Params> {
    var pdata := PlainPdata(h);
    if p.json(pdata).Some? then p.json(pdata)
    else match PdataOutcome(p, h.cmdFunc, h.cmdId, pdata)
         case Decoded(params) => Some(params)
         case _ => None
  }

  /** The bytes of a header that the parsers get: what was sent, or under encryption type 1, unless the
      source is 32, each byte combined with the lowest byte of the sequence number. */
  lemma PlainBytes(h: Header)
    ensures |PlainPdata(h)| == |h.pdata|
    ensures h.encType != 1 || h.src == 32 ==> PlainPdata(h) == h.pdata
    ensures h.encType == 1 && h.src != 32 ==>
              forall i | 0 <= i < |h.pdata| :: PlainPdata(h)[i] == h.pdata[i] ^ ((h.seqNo & 0xFF) as bv8)
  {
    if h.seqNo == 0 {
      assert SeqByte(h.seqNo) == 0;
      forall i | 0 <= i < |h.pdata| ensures h.pdata[i] == h.pdata[i] ^ SeqByte(h.seqNo) {
        XorByte(h.pdata[i], SeqByte(h.seqNo));
      }
    }
  }

  /** What a single header decodes to. A JSON object is the result whatever the command is; without one
      the command pair tells the kind of message, and a pair of no kind or a message that does not
      parse is an error. */
  lemma OneHeaderDecodes(p: Parsers, h: Header, kind: MessageKind)
    ensures p.json(PlainPdata(h)).Some? ==> Decode(p, [h]) == p.json(PlainPdata(h))
    ensures p.json(PlainPdata(h)).None? && IsCommand(kind, h.cmdFunc, h.cmdId) ==>
              Decode(p, [h]) == match p.proto(kind, PlainPdata(h))
                                case Some(m) => Some(MessageParams(kind, m))
                                case None => None
    ensures p.json(PlainPdata(h)).None? && (forall k :: !IsCommand(k, h.cmdFunc, h.cmdId)) ==> Decode(p, [h]).None?
  {
    PdataByCommand(p, h.cmdFunc, h.cmdId, PlainPdata(h));
    assert [h][..0] == [];
    assert CountDecoding(p, [h]) == if HeaderParams(p, h).Some? then 1 else 0;
    if HeaderParams(p, h).Some? {
      var params := HeaderParams(p, h).value;
      assert MergedParams(p, [h]) == map[] + params == params;
    }
  }

  function CountDecoding(p: Parsers, headers: seq<Header>): nat {
    if headers == [] then 0
    else CountDecoding(p, headers[..|headers| - 1]) +
         if HeaderParams(p, headers[|headers| - 1]).Some? then 1 else 0
  }

  function MergedParams(p: Parsers, headers: seq<Header>): Params {
    if headers == [] then map[]
    else
      var before := MergedParams(p, headers[..|headers| - 1]);
      match HeaderParams(p, headers[|headers| - 1])
      case Some(params) => before + params
      case None => before
  }

  function Decode(p: Parsers, headers: seq<Header>): Option<Params> {
    if CountDecoding(p, headers) == 0 then None else Some(MergedParams(p, headers))
  }

  method DecodeProtobufMessage(p: Parsers, headers: seq<Header>)
    returns (r: Option<Params>, parsedCount: nat, failedCount: nat)
    ensures r == Decode(p, headers)
    ensures parsedCount == CountDecoding(p, headers) && parsedCount + failedCount == |headers|
  {
    r, parsedCount, failedCount := None, 0, 0;
    if |headers| == 0 { return; }
    var params: Params := map[];
    var i := 0;
    while i < |headers|
      invariant 0 <= i <= |headers|
      invariant params == MergedParams(p, headers[..i])
      invariant parsedCount == CountDecoding(p, headers[..i]) && parsedCount + failedCount == i
    {
      var header := headers[i];
      assert headers[..i + 1][..i] == headers[..i];
      i := i + 1;
      var pdata := header.pdata;
      if header.encType == 1 && header.seqNo != 0 && header.src != 32 {
        pdata := XorDecrypt(pdata, header.seqNo);
      }
      var pdataParams := map[];
      var json := p.json(pdata);
      if json.Some? {
        parsedCount := parsedCount + 1;
        pdataParams := json.value;
      } else {
        var outcome := DecodeProtobufPdata(p, header.cmdFunc, header.cmdId, pdata);
        if !outcome.Decoded? {
          failedCount := failedCount + 1;
          continue;
        }
        parsedCount := parsedCount + 1;
        pdataParams := outcome.params;
      }
      params := params + pdataParams;
    }
    assert headers[..i] == headers;
    if parsedCount != 0 { r := Some(params); }
  }

  predicate Carries(p: Parsers, h: Header, k: string) {
    HeaderParams(p, h).Some? && k in HeaderParams(p, h).value
  }

  /** The result holds a parameter exactly when some decodable header carries it, with the value of
      the last such header; and decoding fails exactly when no header decodes. */
  lemma {:induction false} LaterHeadersWin(p: Parsers, headers: seq<Header>)
    ensures Decode(p, headers).None? <==> forall h | h in headers :: HeaderParams(p, h).None?
    ensures forall k :: k in MergedParams(p, headers) <==> exists i :: 0 <= i < |headers| && Carries(p, headers[i], k)
    ensures forall i, k | 0 <= i < |headers| && Carries(p, headers[i], k) &&
                          (forall j | i < j < |headers| :: !Carries(p, headers[j], k)) ::
              MergedParams(p, headers)[k] == HeaderParams(p, headers[i]).value[k]
  {
    NoneDecodes(p, headers);
    forall k
      ensures k in MergedParams(p, headers) <==> exists i :: 0 <= i < |headers| && Carries(p, headers[i], k)
    {
      CarriedByMerge(p, headers, k);
    }
    forall i, k | 0 <= i < |headers| && Carries(p, headers[i], k) &&
                  (forall j | i < j < |headers| :: !Carries(p, headers[j], k))
      ensures k in MergedParams(p, headers) && MergedParams(p, headers)[k] == HeaderParams(p, headers[i]).value[k]
    {
      LastCarrier(p, headers, i, k);
    }
  }

  lemma {:induction false} NoneDecodes(p: Parsers, headers: seq<Header>)
    ensures CountDecoding(p, headers) == 0 <==> forall h | h in headers :: HeaderParams(p, h).None?
  {
    if headers != [] {
      var front, last := headers[..|headers| - 1], headers[|headers| - 1];
      NoneDecodes(p, front);
      assert forall h :: h in headers <==> h in front || h == last;
    }
  }

  lemma {:induction false} CarriedByMerge(p: Parsers, headers: seq<Header>, k: string)
    ensures k in MergedParams(p, headers) <==> exists i :: 0 <= i < |headers| && Carries(p, headers[i], k)
  {
    if headers != [] {
      var front := headers[..|headers| - 1];
      CarriedByMerge(p, front, k);
      assert forall i | 0 <= i < |front| :: front[i] == headers[i];
    }
  }

  lemma {:induction false} LastCarrier(p: Parsers, headers: seq<Header>, i: nat, k: string)
    requires i < |headers| && Carries(p, headers[i], k)
    requires forall j | i < j < |headers| :: !Carries(p, headers[j], k)
    ensures k in MergedParams(p, headers) && MergedParams(p, headers)[k] == HeaderParams(p, headers[i]).value[k]
  {
    if i < |headers| - 1 {
      var front := headers[..|headers| - 1];
      assert forall j | 0 <= j < |front| :: front[j] == headers[j];
      LastCarrier(p, front, i, k);
      assert !Carries(p, headers[|headers| - 1], k);
    }
  }

  /** The same message with some of its plain headers sent encrypted. */
  predicate PartlyEncrypted(plain: seq<Header>, sent: seq<Header>) {
    && |plain| == |sent|
    && forall i | 0 <= i < |plain| ::
         sent[i] == plain[i] || (plain[i].encType != 1 && plain[i].src != 32 && sent[i] == Encrypt(plain[i]))
  }

  lemma EncryptedHeaderParams(p: Parsers, h: Header)
    requires h.encType != 1 && h.src != 32
    ensures HeaderParams(p, Encrypt(h)) == HeaderParams(p, h)
  {
    EncryptionIsUndone(h);
  }

  /** Encrypting any of the plain headers leaves the decoded message unchanged. */
  lemma {:induction false} EncryptionInvisible(p: Parsers, plain: seq<Header>, sent: seq<Header>)
    requires PartlyEncrypted(plain, sent)
    ensures Decode(p, sent) == Decode(p, plain)
    ensures CountDecoding(p, sent) == CountDecoding(p, plain) && MergedParams(p, sent) == MergedParams(p, plain)
    decreases |plain|
  {
    if plain != [] {
      var n := |plain| - 1;
      EncryptionInvisible(p, plain[..n], sent[..n]);
      if sent[n] != plain[n] { EncryptedHeaderParams(p, plain[n]); }
    }
  }
}
