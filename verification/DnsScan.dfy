/** parse_a_response of dns.rs, and its exact agreement with the wire format. */
module DnsScan {
  import opened Basics
  import opened DnsWire

  // ----- the scan -----

  /** The question loop: where it stops, or None at a label with its top bits set. */
  function SkipQuestion(pkt: seq<Byte>, i: nat): (r: Option<nat>)
    ensures r.Some? ==> i <= r.value && r.value <= (if i <= |pkt| then |pkt| else i) + 63
    decreases |pkt| - i
  {
    if i >= |pkt| || pkt[i] == 0 then Some(i)
    else if pkt[i] >= 64 then None
    else SkipQuestion(pkt, i + 1 + pkt[i])
  }

  /** The record name loop, which looks at no flag bits. */
  function SkipName(pkt: seq<Byte>, i: nat): (j: nat)
    ensures i <= j <= (if i <= |pkt| then |pkt| else i) + 255
    decreases |pkt| - i
  {
    if i >= |pkt| || pkt[i] == 0 then i else SkipName(pkt, i + 1 + pkt[i])
  }

  function AfterName(pkt: seq<Byte>, i: nat): nat
    requires i < |pkt|
  {
    if pkt[i] >= 192 then i + 2 else SkipName(pkt, i) + 1
  }

  /** What one turn of the record loop comes to. */
  datatype Turn = Stop | Answer(addr: seq<Byte>) | Pass(next: nat)

  function RecordAt(pkt: seq<Byte>, i: nat): (t: Turn)
    ensures t.Pass? ==> i + 11 <= t.next <= |pkt|
  {
    if i + 12 > |pkt| then Stop
    else
      var j := AfterName(pkt, i);
      if j + 10 > |pkt| then Stop
      else
        var rdlen := Be16(pkt[j + 8], pkt[j + 9]);
        if j + 10 + rdlen > |pkt| then Stop
        else if Be16(pkt[j], pkt[j + 1]) == 1 && rdlen == 4 then Answer(pkt[j + 10..j + 14])
        else Pass(j + 10 + rdlen)
  }

  function ScanRecords(pkt: seq<Byte>, i: nat, n: nat): Option<seq<Byte>>
    decreases n
  {
    if n == 0 then None
    else match RecordAt(pkt, i)
      case Stop => None
      case Answer(a) => Some(a)
      case Pass(next) => ScanRecords(pkt, next, n - 1)
  }

  predicate HeaderOk(pkt: seq<Byte>, id: nat) {
    |pkt| >= 12 && Be16(pkt[0], pkt[1]) == id && pkt[3] % 16 == 0
  }

  function AnswerCount(pkt: seq<Byte>): nat
    requires |pkt| >= 12
  {
    Be16(pkt[6], pkt[7])
  }

  function Scan(pkt: seq<Byte>, id: nat): Option<seq<Byte>> {
    if !HeaderOk(pkt, id) || AnswerCount(pkt) == 0 then None
    else
      var q := SkipQuestion(pkt, 12);
      if q.None? then None else ScanRecords(pkt, q.value + 5, AnswerCount(pkt))
  }

  // ----- the loops -----

  /** The scanner as it runs. All reads are in bounds; `peak` is the furthest the cursor
      ever gets and `steps` the number of records passed over. */
  method ParseAResponse(pkt: seq<Byte>, expectId: nat)
    returns (r: Option<seq<Byte>>, ghost steps: nat, ghost peak: nat)
    ensures r == Scan(pkt, expectId)
    ensures peak <= |pkt| + 256
    ensures |pkt| < 12 ==> steps == 0
    ensures |pkt| >= 12 ==> 11 * steps <= |pkt| - 12
  {
    steps, peak := 0, 0;
    if |pkt| < 12 || Be16(pkt[0], pkt[1]) != expectId || pkt[3] % 16 != 0 {
      return None, steps, peak;
    }
    var ancount := Be16(pkt[6], pkt[7]);
    if ancount == 0 {
      return None, steps, peak;
    }
    hide SkipQuestion;
    hide RecordAt;
    var q := QuestionPassed(pkt);
    if q.None? {
      return None, steps, peak;
    }
    var i := q.value + 5;
    peak := i;
    for k := 0 to ancount
      invariant 17 + 11 * k <= i <= |pkt| + 68 && (k > 0 ==> i <= |pkt|)
      invariant steps == k && peak <= |pkt| + 256
      invariant ScanRecords(pkt, i, ancount - k) == Scan(pkt, expectId)
    {
      var turn, far := OneRecord(pkt, i);
      peak := if far > peak then far else peak;
      if turn.Stop? {
        return None, steps, peak;
      }
      if turn.Answer? {
        return Some(turn.addr), steps, peak;
      }
      i := turn.next;
      steps := steps + 1;
    }
    return None, steps, peak;
  }

  /** The question loop, from the end of the header; it never reads at its stopping point. */
  method QuestionPassed(pkt: seq<Byte>) returns (r: Option<nat>)
    requires |pkt| >= 12
    ensures r == SkipQuestion(pkt, 12)
  {
    var i := 12;
    while i < |pkt| && pkt[i] != 0
      invariant 12 <= i <= |pkt| + 63
      invariant SkipQuestion(pkt, i) == SkipQuestion(pkt, 12)
      decreases |pkt| - i
    {
      if pkt[i] >= 64 {
        return None;
      }
      i := i + 1 + pkt[i];
    }
    return Some(i);
  }

  /** The body of the record loop from cursor `start`. */
  method OneRecord(pkt: seq<Byte>, start: nat) returns (turn: Turn, ghost far: nat)
    ensures turn == RecordAt(pkt, start)
    ensures far <= |pkt| + 256 || far == start
  {
    var i := start;
    if i + 12 > |pkt| {
      return Stop, i;
    }
    if pkt[i] >= 192 {
      i := i + 2;
    } else {
      i := NamePassed(pkt, i);
    }
    if i + 10 > |pkt| {
      return Stop, i;
    }
    var qtype := Be16(pkt[i], pkt[i + 1]);
    var rdlen := Be16(pkt[i + 8], pkt[i + 9]);
    i := i + 10;
    if i + rdlen > |pkt| {
      return Stop, i;
    }
    if qtype == 1 && rdlen == 4 {
      return Answer([pkt[i], pkt[i + 1], pkt[i + 2], pkt[i + 3]]), i;
    }
    return Pass(i + rdlen), i + rdlen;
  }

  method NamePassed(pkt: seq<Byte>, start: nat) returns (i: nat)
    requires start < |pkt| && pkt[start] < 192
    ensures i == AfterName(pkt, start) && start < i <= |pkt| + 256
  {
    i := start;
    while i < |pkt| && pkt[i] != 0
      invariant start <= i <= |pkt| + 255
      invariant SkipName(pkt, i) == SkipName(pkt, start)
      decreases |pkt| - i
    {
      i := i + 1 + pkt[i];
    }
    i := i + 1;
  }

  // ----- every scannable packet is scanned as written -----

  lemma {:induction false} SkipNameOver(pkt: seq<Byte>, i: nat, ls: seq<Label>)
    requires LabelsWithin(ls, 255) && At(pkt, i, EncLabels(ls) + [0])
    ensures SkipName(pkt, i) == i + |EncLabels(ls)|
    decreases |ls|
  {
    if ls == [] {
      AtIndex(pkt, i, EncLabels(ls) + [0], 0);
    } else {
      var head, rest := [|ls[0]|] + ls[0], EncLabels(ls[1..]) + [0];
      assert EncLabels(ls) + [0] == head + rest;
      AtSplit(pkt, i, head, rest);
      AtIndex(pkt, i, head, 0);
      SkipNameOver(pkt, i + |head|, ls[1..]);
    }
  }

  lemma {:induction false} SkipQuestionOver(pkt: seq<Byte>, i: nat, ls: seq<Label>)
    requires LabelsWithin(ls, 63) && At(pkt, i, EncLabels(ls) + [0])
    ensures SkipQuestion(pkt, i) == Some(i + |EncLabels(ls)|)
    decreases |ls|
  {
    if ls == [] {
      AtIndex(pkt, i, EncLabels(ls) + [0], 0);
    } else {
      var head, rest := [|ls[0]|] + ls[0], EncLabels(ls[1..]) + [0];
      assert EncLabels(ls) + [0] == head + rest;
      AtSplit(pkt, i, head, rest);
      AtIndex(pkt, i, head, 0);
      SkipQuestionOver(pkt, i + |head|, ls[1..]);
    }
  }

  lemma AfterNameOver(pkt: seq<Byte>, i: nat, n: Name)
    requires ScannableName(n) && At(pkt, i, EncName(n))
    ensures i < |pkt| && AfterName(pkt, i) == i + |EncName(n)|
  {
    AtIndex(pkt, i, EncName(n), 0);
    match n
    case Pointer(hi, lo) =>
    case Labels(ls) =>
      SkipNameOver(pkt, i, ls);
      if ls != [] {
        assert EncName(n)[0] == |ls[0]|;
      }
  }

  /** One well-formed record with at least 12 bytes left: an answer, or a step past it. */
  lemma RecordOver(pkt: seq<Byte>, i: nat, r: Record)
    requires RecordOk(r) && At(pkt, i, EncRecord(r)) && i + 12 <= |pkt|
    ensures RecordAt(pkt, i) == if IsAnswer(r) then Answer(r.rdata) else Pass(i + |EncRecord(r)|)
  {
    var j := i + |EncName(r.name)|;
    AtSplit(pkt, i, EncName(r.name), Fixed(r) + r.rdata);
    AtSplit(pkt, j, Fixed(r), r.rdata);
    AfterNameOver(pkt, i, r.name);
    FixedOver(pkt, j, r);
  }

  lemma FixedOver(pkt: seq<Byte>, j: nat, r: Record)
    requires RecordOk(r) && At(pkt, j, Fixed(r))
    ensures j + 10 <= |pkt| && Be16(pkt[j], pkt[j + 1]) == r.rtype && Be16(pkt[j + 8], pkt[j + 9]) == |r.rdata|
  {
    AtIndex(pkt, j, Fixed(r), 0);
    AtIndex(pkt, j, Fixed(r), 1);
    AtIndex(pkt, j, Fixed(r), 8);
    AtIndex(pkt, j, Fixed(r), 9);
    Be16U16(r.rtype);
    Be16U16(|r.rdata|);
  }

  lemma GuardStops(pkt: seq<Byte>, i: nat)
    ensures i + 12 > |pkt| ==> RecordAt(pkt, i) == Stop
  {
  }

  /** The scan of `n` or more announced records that are all there. The 12-byte guard only
      ever stops at an 11-byte record with nothing behind it, which is no answer. */
  lemma {:induction false} RecordsOver(pkt: seq<Byte>, i: nat, rs: seq<Record>, n: nat)
    requires RecordsOk(rs) && At(pkt, i, EncRecords(rs))
    requires |rs| == n || (|rs| <= n && FirstAnswer(rs).Some?)
    ensures ScanRecords(pkt, i, n) == FirstAnswer(rs)
    decreases |rs|
  {
    hide RecordAt;
    hide EncRecord;
    hide RecordOk;
    if rs != [] {
      AtSplit(pkt, i, EncRecord(rs[0]), EncRecords(rs[1..]));
      GuardStops(pkt, i);
      if i + 12 <= |pkt| {
        RecordOver(pkt, i, rs[0]);
        if !IsAnswer(rs[0]) {
          RecordsOver(pkt, i + |EncRecord(rs[0])|, rs[1..], n - 1);
        }
      } else {
        EncLength(rs[1..]);
      }
    }
  }

  lemma {:induction false} EncLength(rs: seq<Record>)
    requires RecordsOk(rs)
    ensures |EncRecords(rs)| >= 11 * |rs|
  {
    if rs != [] {
      EncLength(rs[1..]);
    }
  }

  // ----- and nothing else is -----

  function LabelsAt(pkt: seq<Byte>, i: nat): seq<Label>
    decreases |pkt| - i
  {
    if i >= |pkt| || pkt[i] == 0 || i + 1 + pkt[i] > |pkt| then []
    else [pkt[i + 1..i + 1 + pkt[i]]] + LabelsAt(pkt, i + 1 + pkt[i])
  }

  lemma {:induction false} LabelsThere(pkt: seq<Byte>, i: nat)
    requires SkipName(pkt, i) < |pkt|
    ensures LabelsWithin(LabelsAt(pkt, i), 255)
    ensures At(pkt, i, EncLabels(LabelsAt(pkt, i)) + [0])
    ensures SkipName(pkt, i) == i + |EncLabels(LabelsAt(pkt, i))|
    decreases |pkt| - i
  {
    if pkt[i] != 0 {
      var next := i + 1 + pkt[i];
      assert next <= SkipName(pkt, next);
      LabelsThere(pkt, next);
      var head := [pkt[i]] + pkt[i + 1..next];
      assert pkt[i..next] == head;
      AtSplit(pkt, i, head, EncLabels(LabelsAt(pkt, next)) + [0]);
      assert LabelsAt(pkt, i)[1..] == LabelsAt(pkt, next);
      assert EncLabels(LabelsAt(pkt, i)) + [0] == head + (EncLabels(LabelsAt(pkt, next)) + [0]);
    }
  }

  lemma {:induction false} QuestionThere(pkt: seq<Byte>, i: nat)
    requires SkipQuestion(pkt, i).Some? && SkipQuestion(pkt, i).value < |pkt|
    ensures SkipName(pkt, i) == SkipQuestion(pkt, i).value
    ensures LabelsWithin(LabelsAt(pkt, i), 63)
    decreases |pkt| - i
  {
    if pkt[i] != 0 {
      var next := i + 1 + pkt[i];
      QuestionThere(pkt, next);
      assert LabelsAt(pkt, i)[1..] == LabelsAt(pkt, next);
    }
  }

  function NameAt(pkt: seq<Byte>, i: nat): Name
    requires i + 2 <= |pkt|
  {
    if pkt[i] >= 192 then Pointer(pkt[i], pkt[i + 1]) else Labels(LabelsAt(pkt, i))
  }

  lemma NameThere(pkt: seq<Byte>, i: nat)
    requires i + 2 <= |pkt| && AfterName(pkt, i) <= |pkt|
    ensures ScannableName(NameAt(pkt, i)) && At(pkt, i, EncName(NameAt(pkt, i)))
    ensures AfterName(pkt, i) == i + |EncName(NameAt(pkt, i))|
  {
    if pkt[i] < 192 {
      LabelsThere(pkt, i);
    }
  }

  function RecordRead(pkt: seq<Byte>, i: nat): Record
    requires i + 2 <= |pkt| && AfterName(pkt, i) + 10 <= |pkt|
    requires var j := AfterName(pkt, i); j + 10 + Be16(pkt[j + 8], pkt[j + 9]) <= |pkt|
  {
    var j := AfterName(pkt, i);
    Record(NameAt(pkt, i), Be16(pkt[j], pkt[j + 1]), pkt[j + 2..j + 8],
           pkt[j + 10..j + 10 + Be16(pkt[j + 8], pkt[j + 9])])
  }

  lemma FixedThere(pkt: seq<Byte>, j: nat, r: Record)
    requires RecordOk(r) && j + 10 <= |pkt| && r.rtype == Be16(pkt[j], pkt[j + 1])
    requires r.mid == pkt[j + 2..j + 8] && |r.rdata| == Be16(pkt[j + 8], pkt[j + 9])
    ensures At(pkt, j, Fixed(r))
  {
    U16Be16(pkt[j], pkt[j + 1]);
    U16Be16(pkt[j + 8], pkt[j + 9]);
    assert pkt[j..j + 10] == [pkt[j], pkt[j + 1]] + pkt[j + 2..j + 8] + [pkt[j + 8], pkt[j + 9]];
  }

  lemma TurnShape(pkt: seq<Byte>, i: nat)
    requires !RecordAt(pkt, i).Stop?
    ensures i + 12 <= |pkt| && AfterName(pkt, i) + 10 <= |pkt|
    ensures var j := AfterName(pkt, i); j + 10 + Be16(pkt[j + 8], pkt[j + 9]) <= |pkt|
  {
  }

  /** Wherever the scan does not stop, a well-formed record lies. */
  lemma RecordThere(pkt: seq<Byte>, i: nat)
    requires !RecordAt(pkt, i).Stop?
    ensures i + 12 <= |pkt| && AfterName(pkt, i) + 10 <= |pkt|
    ensures var j := AfterName(pkt, i); j + 10 + Be16(pkt[j + 8], pkt[j + 9]) <= |pkt|
    ensures RecordOk(RecordRead(pkt, i)) && At(pkt, i, EncRecord(RecordRead(pkt, i)))
  {
    TurnShape(pkt, i);
    hide RecordAt;
    hide At;
    var j, r := AfterName(pkt, i), RecordRead(pkt, i);
    NameThere(pkt, i);
    hide NameAt;
    hide AfterName;
    U16Be16(pkt[j], pkt[j + 1]);
    U16Be16(pkt[j + 8], pkt[j + 9]);
    hide Be16;
    FixedThere(pkt, j, r);
    hide Fixed;
    RdataThere(pkt, j, r);
    AtSplit(pkt, j, Fixed(r), r.rdata);
    AtSplit(pkt, i, EncName(r.name), Fixed(r) + r.rdata);
  }

  lemma RdataThere(pkt: seq<Byte>, j: nat, r: Record)
    requires j + 10 + |r.rdata| <= |pkt| && r.rdata == pkt[j + 10..j + 10 + |r.rdata|]
    ensures At(pkt, j + 10, r.rdata)
  {
  }

  /** `rs` is what the scan from `i` passes over, up to and including the answer. */
  ghost predicate SpellsOut(pkt: seq<Byte>, i: nat, n: nat, rs: seq<Record>, a: Option<seq<Byte>>) {
    |rs| <= n && RecordsOk(rs) && At(pkt, i, EncRecords(rs)) && FirstAnswer(rs) == a
  }

  lemma SpellsMore(pkt: seq<Byte>, i: nat, n: nat, r: Record, rs: seq<Record>, a: Option<seq<Byte>>)
    requires n > 0 && RecordOk(r) && At(pkt, i, EncRecord(r)) && !IsAnswer(r)
    requires SpellsOut(pkt, i + |EncRecord(r)|, n - 1, rs, a)
    ensures SpellsOut(pkt, i, n, [r] + rs, a)
  {
    hide EncRecord;
    hide RecordOk;
    hide At;
    assert ([r] + rs)[1..] == rs;
    AtSplit(pkt, i, EncRecord(r), EncRecords(rs));
  }

  lemma SpellsOne(pkt: seq<Byte>, i: nat, n: nat, r: Record)
    requires n > 0 && RecordOk(r) && At(pkt, i, EncRecord(r)) && IsAnswer(r)
    ensures SpellsOut(pkt, i, n, [r], Some(r.rdata))
  {
    hide RecordOk;
    assert EncRecords([r]) == EncRecord(r);
  }

  lemma ReadOne(pkt: seq<Byte>, i: nat) returns (r: Record)
    requires !RecordAt(pkt, i).Stop?
    ensures RecordOk(r) && At(pkt, i, EncRecord(r))
    ensures RecordAt(pkt, i) == if IsAnswer(r) then Answer(r.rdata) else Pass(i + |EncRecord(r)|)
  {
    RecordThere(pkt, i);
    r := RecordRead(pkt, i);
    hide RecordRead;
    hide RecordAt;
    hide EncRecord;
    RecordOver(pkt, i, r);
  }

  lemma {:induction false} RecordsThere(pkt: seq<Byte>, i: nat, n: nat) returns (rs: seq<Record>)
    requires ScanRecords(pkt, i, n).Some?
    ensures SpellsOut(pkt, i, n, rs, ScanRecords(pkt, i, n))
    decreases n
  {
    hide RecordAt;
    hide EncRecord;
    hide RecordOk;
    hide At;
    hide SpellsOut;
    var r := ReadOne(pkt, i);
    if IsAnswer(r) {
      SpellsOne(pkt, i, n, r);
      rs := [r];
    } else {
      var more := RecordsThere(pkt, i + |EncRecord(r)|, n - 1);
      SpellsMore(pkt, i, n, r, more, ScanRecords(pkt, i, n));
      rs := [r] + more;
    }
  }

  // ----- the header -----

  function HeaderRead(pkt: seq<Byte>): Header
    requires |pkt| >= 12
  {
    Header(Be16(pkt[0], pkt[1]), Be16(pkt[2], pkt[3]), Be16(pkt[4], pkt[5]),
           Be16(pkt[6], pkt[7]), Be16(pkt[8], pkt[9]), Be16(pkt[10], pkt[11]))
  }

  /** Whatever the first twelve bytes are, they are the header that is read from them. */
  lemma HeaderThere(pkt: seq<Byte>)
    requires |pkt| >= 12
    ensures HeaderFits(HeaderRead(pkt)) && At(pkt, 0, EncHeader(HeaderRead(pkt)))
  {
    U16Be16(pkt[0], pkt[1]);
    U16Be16(pkt[2], pkt[3]);
    U16Be16(pkt[4], pkt[5]);
    U16Be16(pkt[6], pkt[7]);
    U16Be16(pkt[8], pkt[9]);
    U16Be16(pkt[10], pkt[11]);
    hide Be16;
    hide U16;
    assert pkt[0..12] == [pkt[0], pkt[1]] + [pkt[2], pkt[3]] + [pkt[4], pkt[5]]
                         + [pkt[6], pkt[7]] + [pkt[8], pkt[9]] + [pkt[10], pkt[11]];
  }

  /** The scanner's three looks at the header find id, RCODE and answer count. */
  lemma HeaderOver(pkt: seq<Byte>, h: Header, id: nat)
    requires HeaderFits(h) && At(pkt, 0, EncHeader(h))
    ensures |pkt| >= 12 && AnswerCount(pkt) == h.an
    ensures HeaderOk(pkt, id) <==> h.id == id && Rcode(h) == 0
  {
    var e := EncHeader(h);
    AtIndex(pkt, 0, e, 0);
    AtIndex(pkt, 0, e, 1);
    AtIndex(pkt, 0, e, 3);
    AtIndex(pkt, 0, e, 6);
    AtIndex(pkt, 0, e, 7);
    assert e[0..2] == U16(h.id) && e[2..4] == U16(h.flags) && e[6..8] == U16(h.an);
    assert e[3] == U16(h.flags)[1] && e[6] == U16(h.an)[0] && e[7] == U16(h.an)[1];
  }

  // ----- the main results -----

  /** The packet begins with this message, which answers query `id`: no error, no more records
      than the header announces, the first answer among them being `addr`. */
  ghost predicate Explains(pkt: seq<Byte>, id: nat, m: Message, addr: seq<Byte>) {
    && MessageOk(m) && At(pkt, 0, EncMessage(m))
    && m.header.id == id && Rcode(m.header) == 0
    && |m.records| <= m.header.an && FirstAnswer(m.records) == Some(addr)
  }

  lemma FoundIsExplained(pkt: seq<Byte>, id: nat, addr: seq<Byte>) returns (m: Message)
    requires Scan(pkt, id) == Some(addr)
    ensures Explains(pkt, id, m, addr)
  {
    var i := SkipQuestion(pkt, 12).value + 5;
    TurnShape(pkt, i);
    hide RecordAt;
    QuestionThere(pkt, 12);
    LabelsThere(pkt, 12);
    var qname, h := LabelsAt(pkt, 12), HeaderRead(pkt);
    HeaderThere(pkt);
    HeaderOver(pkt, h, id);
    assert At(pkt, i - 4, pkt[i - 4..i]);
    hide SkipQuestion;
    hide LabelsAt;
    hide SkipName;
    hide At;
    hide RecordsOk;
    hide HeaderRead;
    var rs := RecordsThere(pkt, i, AnswerCount(pkt));
    m := Message(h, qname, pkt[i - 4..i], rs);
    AtMessage(pkt, m);
  }

  lemma ExplainedIsFound(pkt: seq<Byte>, id: nat, addr: seq<Byte>, m: Message)
    requires Explains(pkt, id, m, addr)
    ensures Scan(pkt, id) == Some(addr)
  {
    AtMessage(pkt, m);
    HeaderOver(pkt, m.header, id);
    hide RecordAt;
    SkipQuestionOver(pkt, 12, m.qname);
    hide SkipQuestion;
    hide EncLabels;
    hide EncMessage;
    RecordsOver(pkt, 12 + |EncLabels(m.qname)| + 5, m.records, m.header.an);
    hide ScanRecords;
  }

  /** On every byte string: an address is returned exactly if the packet spells it out. */
  lemma ScanFindsIff(pkt: seq<Byte>, id: nat, addr: seq<Byte>)
    ensures Scan(pkt, id) == Some(addr) <==> exists m :: Explains(pkt, id, m, addr)
  {
    hide Scan;
    hide Explains;
    if Scan(pkt, id) == Some(addr) {
      var m := FoundIsExplained(pkt, id, addr);
    }
    if exists m :: Explains(pkt, id, m, addr) {
      var m :| Explains(pkt, id, m, addr);
      ExplainedIsFound(pkt, id, addr, m);
    }
  }

  /** A packet that begins with a message with exactly the announced records, whatever follows:
      the first address record if id and RCODE are right, otherwise None. */
  lemma ScanIsFirstAnswer(pkt: seq<Byte>, id: nat, m: Message)
    requires MessageOk(m) && At(pkt, 0, EncMessage(m)) && m.header.an == |m.records|
    ensures Scan(pkt, id) == if m.header.id == id && Rcode(m.header) == 0 then FirstAnswer(m.records) else None
  {
    AtMessage(pkt, m);
    HeaderOver(pkt, m.header, id);
    hide RecordAt;
    SkipQuestionOver(pkt, 12, m.qname);
    hide SkipQuestion;
    hide EncLabels;
    hide EncMessage;
    RecordsOver(pkt, 12 + |EncLabels(m.qname)| + 5, m.records, |m.records|);
    hide ScanRecords;
  }
}
