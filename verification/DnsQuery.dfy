/** Query construction in dns.rs, and its agreement with the scanner. */
module DnsQuery {
  import opened Basics
  import opened DnsWire
  import opened DnsScan
  import opened Splitting

  const DOT: Byte := 46

  /** `cs.split('.')`. */
  function LabelsOf(host: seq<Byte>): seq<Label> { Split(host, DOT) }

  /** What the question section of a query for `host` is: name, QTYPE A, QCLASS IN. */
  function Question(host: seq<Byte>): seq<Byte>
    requires Accepted(host)
  {
    EncLabels(LabelsOf(host)) + [0] + (U16(1) + U16(1))
  }

  /** A standard query with recursion desired and one question. */
  function Query(id: nat, host: seq<Byte>): seq<Byte>
    requires id < 0x1_0000 && Accepted(host)
  {
    EncHeader(Header(id, 0x100, 1, 0, 0, 0)) + Question(host)
  }

  /** The hostnames the encoder takes: every label has 1 to 63 bytes. */
  predicate Accepted(host: seq<Byte>) { LabelsWithin(LabelsOf(host), 63) }

  lemma {:induction false} EncLabelsPush(ls: seq<Label>, l: Label)
    requires LabelsWithin(ls, 255) && 1 <= |l| <= 255
    ensures EncLabels(ls + [l]) == EncLabels(ls) + ([|l|] + l)
  {
    if ls == [] {
      assert ls + [l] == [l];
    } else {
      assert (ls + [l])[1..] == ls[1..] + [l];
      EncLabelsPush(ls[1..], l);
    }
  }

  /** The query vector as it is built, push by push; None for a hostname it refuses. */
  method BuildQuery(id: nat, host: seq<Byte>) returns (query: Option<seq<Byte>>)
    requires id < 0x1_0000
    ensures query.Some? <==> Accepted(host)
    ensures query.Some? ==> query.value == Query(id, host)
  {
    var q: seq<Byte> := U16(id);
    q := q + [0x01, 0x00];
    q := q + [0, 1, 0, 0, 0, 0, 0, 0];
    ghost var head := q;
    QueryHeader(id);
    hide EncHeader;
    hide EncLabels;
    var labelled := PushLabels(q, LabelsOf(host));
    if labelled.None? {
      return None;
    }
    q := labelled.value + [0];
    q := q + [0, 1];
    q := q + [0, 1];
    assert U16(1) == [0, 1];
    hide U16;
    assert q == head + Question(host);
    return Some(q);
  }

  /** The loop over the labels, each with its length before it. */
  method PushLabels(head: seq<Byte>, labels: seq<Label>) returns (r: Option<seq<Byte>>)
    ensures r.Some? <==> LabelsWithin(labels, 63)
    ensures r.Some? ==> r.value == head + EncLabels(labels)
  {
    var q := head;
    for k := 0 to |labels|
      invariant LabelsWithin(labels[..k], 63)
      invariant q == head + EncLabels(labels[..k])
    {
      if labels[k] == [] || |labels[k]| > 63 {
        return None;
      }
      EncLabelsPush(labels[..k], labels[k]);
      assert labels[..k + 1] == labels[..k] + [labels[k]];
      q := q + [|labels[k]|];
      q := q + labels[k];
    }
    assert labels[..|labels|] == labels;
    return Some(q);
  }

  lemma QueryHeader(id: nat)
    requires id < 0x1_0000
    ensures EncHeader(Header(id, 0x100, 1, 0, 0, 0)) == U16(id) + [0x01, 0x00] + [0, 1, 0, 0, 0, 0, 0, 0]
  {
    assert U16(0x100) == [1, 0] && U16(1) == [0, 1] && U16(0) == [0, 0];
  }

  /** For every hostname the encoder takes and every packet that echoes its question, the
      scanner's question skip ends exactly on the question's end, and reading the labels
      back gives the hostname. */
  lemma QuestionSkipLands(pkt: seq<Byte>, host: seq<Byte>)
    requires Accepted(host) && At(pkt, 12, Question(host))
    ensures SkipQuestion(pkt, 12).Some? && SkipQuestion(pkt, 12).value + 5 == 12 + |Question(host)|
    ensures LabelsAt(pkt, 12) == LabelsOf(host) && Join(LabelsOf(host), DOT) == host
  {
    var ls := LabelsOf(host);
    AtSplit(pkt, 12, EncLabels(ls) + [0], U16(1) + U16(1));
    SkipQuestionOver(pkt, 12, ls);
    LabelsReadBack(pkt, 12, ls);
    JoinSplit(host, DOT);
  }

  lemma {:induction false} LabelsReadBack(pkt: seq<Byte>, i: nat, ls: seq<Label>)
    requires LabelsWithin(ls, 255) && At(pkt, i, EncLabels(ls) + [0])
    ensures LabelsAt(pkt, i) == ls
    decreases |ls|
  {
    if ls == [] {
      AtIndex(pkt, i, EncLabels(ls) + [0], 0);
    } else {
      var head, rest := [|ls[0]|] + ls[0], EncLabels(ls[1..]) + [0];
      assert EncLabels(ls) + [0] == head + rest;
      AtSplit(pkt, i, head, rest);
      AtIndex(pkt, i, head, 0);
      assert pkt[i..i + |head|][1..] == pkt[i + 1..i + |head|] && head[1..] == ls[0];
      LabelsReadBack(pkt, i + |head|, ls[1..]);
    }
  }

  /** From hostname to address: a reply that has the first two bytes of the query, no error,
      the query's question and exactly the announced well-formed records yields the first
      address among them. */
  lemma ReplyIsUnderstood(pkt: seq<Byte>, id: nat, host: seq<Byte>, h: Header, rs: seq<Record>)
    requires id < 0x1_0000 && Accepted(host) && HeaderFits(h) && RecordsOk(rs)
    requires At(pkt, 0, EncHeader(h) + (Question(host) + EncRecords(rs)))
    requires pkt[..2] == Query(id, host)[..2] && Rcode(h) == 0 && h.an == |rs|
    ensures Scan(pkt, id) == FirstAnswer(rs)
  {
    hide Scan;
    hide EncRecords;
    hide EncLabels;
    hide EncHeader;
    hide U16;
    hide At;
    var m := Message(h, LabelsOf(host), U16(1) + U16(1), rs);
    assert MessageOk(m);
    Regroup(EncLabels(LabelsOf(host)) + [0], m.qtail, EncRecords(rs));
    SameId(pkt, id, host, h, Question(host) + EncRecords(rs));
    ScanIsFirstAnswer(pkt, id, m);
  }

  lemma Regroup(a: seq<Byte>, b: seq<Byte>, c: seq<Byte>)
    ensures a + (b + c) == (a + b) + c
  {
  }

  lemma SameId(pkt: seq<Byte>, id: nat, host: seq<Byte>, h: Header, rest: seq<Byte>)
    requires id < 0x1_0000 && Accepted(host) && HeaderFits(h)
    requires At(pkt, 0, EncHeader(h) + rest) && pkt[..2] == Query(id, host)[..2]
    ensures h.id == id
  {
    AtSplit(pkt, 0, EncHeader(h), rest);
    AtIndex(pkt, 0, EncHeader(h), 0);
    AtIndex(pkt, 0, EncHeader(h), 1);
    assert pkt[..2][0] == Query(id, host)[0] == U16(id)[0] && pkt[..2][1] == Query(id, host)[1] == U16(id)[1];
    assert EncHeader(h)[0] == U16(h.id)[0] && EncHeader(h)[1] == U16(h.id)[1];
    Be16U16(id);
    Be16U16(h.id);
  }

  /** The query is itself a message without records: the scanner's id check would accept it, and
      its question skip ends where the query ends. */
  lemma QueryIsMessage(id: nat, host: seq<Byte>)
    requires id < 0x1_0000 && Accepted(host)
    ensures var q := Query(id, host);
            && |q| >= 12 && HeaderRead(q) == Header(id, 0x100, 1, 0, 0, 0)
            && SkipQuestion(q, 12).Some? && SkipQuestion(q, 12).value + 5 == |q|
            && Join(LabelsAt(q, 12), DOT) == host
  {
    var h, q := Header(id, 0x100, 1, 0, 0, 0), Query(id, host);
    assert At(q, 0, EncHeader(h) + Question(host));
    AtSplit(q, 0, EncHeader(h), Question(host));
    QuestionSkipLands(q, host);
    hide EncLabels;
    hide SkipQuestion;
    hide LabelsAt;
    HeaderBack(q, h);
  }

  lemma HeaderBack(pkt: seq<Byte>, h: Header)
    requires HeaderFits(h) && At(pkt, 0, EncHeader(h))
    ensures |pkt| >= 12 && HeaderRead(pkt) == h
  {
    forall k: nat | k < 12
      ensures pkt[k] == EncHeader(h)[k]
    {
      AtIndex(pkt, 0, EncHeader(h), k);
    }
    Be16U16(h.id);
    Be16U16(h.flags);
    Be16U16(h.qd);
    Be16U16(h.an);
    Be16U16(h.ns);
    Be16U16(h.ar);
    hide Be16;
    hide U16;
  }

  // ----- one reply, byte by byte -----

  const KNOWN_REPLY: seq<Byte> :=
    [0, 1, 0x81, 0x80, 0, 1, 0, 2, 0, 0, 0, 0]                         // id 1, two answers
    + [1, 97, 0, 0, 1, 0, 1]                                           // question: "a", A, IN
    + ([0xC0, 12, 0, 5, 0, 1, 0, 0, 0, 60, 0, 2, 0xC0, 12]             // CNAME
       + [0xC0, 12, 0, 1, 0, 1, 0, 0, 0, 60, 0, 4, 1, 2, 3, 4])        // A 1.2.3.4

  /** The query for "a" with id 1. */
  lemma KnownQuery()
    ensures Accepted([97])
    ensures Query(1, [97]) == [0, 1, 1, 0, 0, 1, 0, 0, 0, 0, 0, 0, 1, 97, 0, 0, 1, 0, 1]
  {
    SplitPlain([97], DOT);
    assert EncLabels([[97]]) == [1, 97];
    QueryHeader(1);
    assert U16(1) == [0, 1];
  }

  lemma KnownRecords()
    ensures |KNOWN_REPLY| == 49
    ensures RecordAt(KNOWN_REPLY, 19) == Pass(33) && RecordAt(KNOWN_REPLY, 33) == Answer([1, 2, 3, 4])
  {
  }

  lemma KnownQuestion()
    ensures HeaderOk(KNOWN_REPLY, 1) && AnswerCount(KNOWN_REPLY) == 2
    ensures SkipQuestion(KNOWN_REPLY, 12) == Some(14)
  {
    assert SkipQuestion(KNOWN_REPLY, 14) == Some(14);
  }

  /** An ordinary reply to the query for "a": an alias, then the address. */
  lemma KnownReply()
    ensures Scan(KNOWN_REPLY, 1) == Some([1, 2, 3, 4])
  {
    KnownRecords();
    KnownQuestion();
    hide KNOWN_REPLY;
    hide RecordAt;
    hide SkipQuestion;
    assert ScanRecords(KNOWN_REPLY, 33, 1) == Some([1, 2, 3, 4]);
  }
}
