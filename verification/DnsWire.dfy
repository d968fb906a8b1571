/**
The wire format that dns.rs writes and scans (sections 4.1 and 4.1.4 of RFC 1035), given
declaratively: what bytes a name, a question and a record are.
 */
module DnsWire {
  import opened Basics

  // ----- bytes at a position -----

  ghost predicate At(pkt: seq<Byte>, i: nat, enc: seq<Byte>) {
    i + |enc| <= |pkt| && pkt[i..i + |enc|] == enc
  }

  lemma AtSplit(pkt: seq<Byte>, i: nat, a: seq<Byte>, b: seq<Byte>)
    ensures At(pkt, i, a + b) <==> At(pkt, i, a) && At(pkt, i + |a|, b)
  {
    if i + |a| + |b| <= |pkt| {
      var whole := pkt[i..i + |a + b|];
      assert whole == pkt[i..i + |a|] + pkt[i + |a|..i + |a| + |b|];
      assert whole[..|a|] == pkt[i..i + |a|];
      assert whole[|a|..] == pkt[i + |a|..i + |a| + |b|];
      assert (a + b)[..|a|] == a && (a + b)[|a|..] == b;
    }
  }

  lemma AtIndex(pkt: seq<Byte>, i: nat, enc: seq<Byte>, k: nat)
    requires At(pkt, i, enc) && k < |enc|
    ensures pkt[i + k] == enc[k]
  {
    assert pkt[i..i + |enc|][k] == pkt[i + k];
  }

  function Be16(hi: Byte, lo: Byte): nat {
    var h: int := hi;
    h * 256 + lo
  }

  lemma Be16U16(n: nat)
    requires n < 0x1_0000
    ensures Be16(U16(n)[0], U16(n)[1]) == n
  {
  }

  lemma U16Be16(hi: Byte, lo: Byte)
    ensures Be16(hi, lo) < 0x1_0000 && U16(Be16(hi, lo)) == [hi, lo]
  {
  }

  // ----- labels and names -----

  type Label = seq<Byte>

  predicate LabelsWithin(ls: seq<Label>, max: nat) {
    forall k :: 0 <= k < |ls| ==> 1 <= |ls[k]| <= max
  }

  function EncLabels(ls: seq<Label>): seq<Byte>
    requires LabelsWithin(ls, 255)
  {
    if ls == [] then [] else [|ls[0]|] + ls[0] + EncLabels(ls[1..])
  }

  /** A compression pointer or a list of labels closed by the root label. */
  datatype Name = Pointer(hi: Byte, lo: Byte) | Labels(labels: seq<Label>)

  /** The names the record scanner accepts: a pointer, or labels of which the first does not
      look like a pointer. Plain names, with labels of at most 63 bytes, are among them. */
  predicate ScannableName(n: Name) {
    match n
    case Pointer(hi, _) => hi >= 192
    case Labels(ls) => LabelsWithin(ls, 255) && (ls != [] ==> |ls[0]| < 192)
  }

  function EncName(n: Name): (r: seq<Byte>)
    requires ScannableName(n)
    ensures |r| >= 1
  {
    match n
    case Pointer(hi, lo) => [hi, lo]
    case Labels(ls) => EncLabels(ls) + [0]
  }

  // ----- records -----

  /** `mid` is class and TTL, which the scanner does not look at. */
  datatype Record = Record(name: Name, rtype: nat, mid: seq<Byte>, rdata: seq<Byte>)

  predicate RecordOk(r: Record) {
    ScannableName(r.name) && r.rtype < 0x1_0000 && |r.mid| == 6 && |r.rdata| < 0x1_0000
  }

  predicate RecordsOk(rs: seq<Record>) {
    forall k :: 0 <= k < |rs| ==> RecordOk(rs[k])
  }

  function Fixed(r: Record): (e: seq<Byte>)
    requires RecordOk(r)
    ensures |e| == 10
  {
    U16(r.rtype) + r.mid + U16(|r.rdata|)
  }

  function EncRecord(r: Record): (e: seq<Byte>)
    requires RecordOk(r)
    ensures |e| == |EncName(r.name)| + 10 + |r.rdata|
  {
    EncName(r.name) + (Fixed(r) + r.rdata)
  }

  function EncRecords(rs: seq<Record>): seq<Byte>
    requires RecordsOk(rs)
  {
    if rs == [] then [] else EncRecord(rs[0]) + EncRecords(rs[1..])
  }

  /** An IPv4 address record, as the resolver wants it. */
  predicate IsAnswer(r: Record) { r.rtype == 1 && |r.rdata| == 4 }

  function FirstAnswer(rs: seq<Record>): Option<seq<Byte>> {
    if rs == [] then None
    else if IsAnswer(rs[0]) then Some(rs[0].rdata)
    else FirstAnswer(rs[1..])
  }

  // ----- whole messages -----

  /** Section 4.1.1 of RFC 1035: id, flags with RCODE in the low four bits, and the counts of
      questions, answers, authorities and additional records. */
  datatype Header = Header(id: nat, flags: nat, qd: nat, an: nat, ns: nat, ar: nat)

  predicate HeaderFits(h: Header) {
    && h.id < 0x1_0000 && h.flags < 0x1_0000 && h.qd < 0x1_0000
    && h.an < 0x1_0000 && h.ns < 0x1_0000 && h.ar < 0x1_0000
  }

  function Rcode(h: Header): nat { h.flags % 16 }

  function EncHeader(h: Header): (e: seq<Byte>)
    requires HeaderFits(h)
    ensures |e| == 12
  {
    U16(h.id) + U16(h.flags) + U16(h.qd) + U16(h.an) + U16(h.ns) + U16(h.ar)
  }

  /** One question, of which type and class are the four bytes of `qtail`, and records. */
  datatype Message = Message(header: Header, qname: seq<Label>, qtail: seq<Byte>, records: seq<Record>)

  predicate MessageOk(m: Message) {
    HeaderFits(m.header) && LabelsWithin(m.qname, 63) && |m.qtail| == 4 && RecordsOk(m.records)
  }

  function EncMessage(m: Message): seq<Byte>
    requires MessageOk(m)
  {
    EncHeader(m.header) + ((EncLabels(m.qname) + [0]) + (m.qtail + EncRecords(m.records)))
  }

  lemma AtMessage(pkt: seq<Byte>, m: Message)
    requires MessageOk(m)
    ensures At(pkt, 0, EncMessage(m)) <==>
              && At(pkt, 0, EncHeader(m.header)) && At(pkt, 12, EncLabels(m.qname) + [0])
              && At(pkt, 13 + |EncLabels(m.qname)|, m.qtail)
              && At(pkt, 12 + |EncLabels(m.qname)| + 5, EncRecords(m.records))
  {
    hide At;
    hide EncRecords;
    hide EncLabels;
    hide EncHeader;
    var q, rest := EncLabels(m.qname) + [0], m.qtail + EncRecords(m.records);
    AtSplit(pkt, 0, EncHeader(m.header), q + rest);
    AtSplit(pkt, 12, q, rest);
    AtSplit(pkt, 12 + |q|, m.qtail, EncRecords(m.records));
  }
}
