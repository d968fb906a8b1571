/** The send loop net_tcp_send of esp_smoltcp_sock.c. */
module TcpSend {
  import opened Basics

  /** One turn of the loop: how many bytes smoltcp has room for (none also stands for an
      error), and whether the deadline has passed if the loop looks at the clock. */
  datatype Answer = Answer(room: nat, late: bool)

  function Min(a: nat, b: nat): nat { if a < b then a else b }

  function Concat(chunks: seq<seq<Byte>>): seq<Byte> {
    if chunks == [] then [] else chunks[0] + Concat(chunks[1..])
  }

  lemma {:induction false} ConcatPush(chunks: seq<seq<Byte>>, c: seq<Byte>)
    ensures Concat(chunks + [c]) == Concat(chunks) + c
  {
    if chunks == [] {
      assert chunks + [c] == [c];
    } else {
      assert (chunks + [c])[1..] == chunks[1..] + [c];
      ConcatPush(chunks[1..], c);
    }
  }

  /** The bytes accepted by the end of the loop, from `total` on. The deadline passes at the
      latest when the answers run out. */
  function Accepted(len: nat, total: nat, answers: seq<Answer>): (t: nat)
    requires total <= len
    ensures total <= t <= len
    decreases |answers|
  {
    if total == len || answers == [] then total
    else if answers[0].room > 0 then Accepted(len, total + Min(answers[0].room, len - total), answers[1..])
    else if answers[0].late then total
    else Accepted(len, total, answers[1..])
  }

  /** `up` is whether the interface has a core. `chunks` are the byte runs smoltcp took. */
  method NetTcpSend(up: bool, buf: seq<Byte>, answers: seq<Answer>) returns (ret: int, chunks: seq<seq<Byte>>)
    ensures ret == -1 || 0 < ret <= |buf|
    ensures ret != -1 ==> Concat(chunks) == buf[..ret]
    ensures ret == -1 <==> Concat(chunks) == []
    ensures up ==> ret == if Accepted(|buf|, 0, answers) == 0 then -1 else Accepted(|buf|, 0, answers)
    ensures !up ==> ret == -1
  {
    chunks := [];
    if !up {
      return -1, chunks;
    }
    var total, k := 0, 0;
    while total < |buf| && k < |answers|
      invariant 0 <= total <= |buf| && 0 <= k <= |answers|
      invariant Concat(chunks) == buf[..total]
      invariant Accepted(|buf|, total, answers[k..]) == Accepted(|buf|, 0, answers)
      decreases |answers| - k
    {
      var a := answers[k];
      assert answers[k..][1..] == answers[k + 1..];
      k := k + 1;
      if a.room > 0 {
        var n := Min(a.room, |buf| - total);
        ConcatPush(chunks, buf[total..total + n]);
        assert buf[..total] + buf[total..total + n] == buf[..total + n];
        chunks := chunks + [buf[total..total + n]];
        total := total + n;
      } else if a.late {
        break;
      }
    }
    ret := if total > 0 then total else -1;
  }

  function Room(answers: seq<Answer>): nat {
    if answers == [] then 0 else answers[0].room + Room(answers[1..])
  }

  /** The turn at which the loop gives up: the first that is late and finds no room. */
  function GivesUpAt(answers: seq<Answer>): (k: nat)
    ensures k <= |answers| && (k < |answers| ==> answers[k].late && answers[k].room == 0)
    ensures forall n :: 0 <= n < k ==> !answers[n].late || answers[n].room > 0
  {
    if answers == [] || (answers[0].late && answers[0].room == 0) then 0 else 1 + GivesUpAt(answers[1..])
  }

  /** The loop gets everything into smoltcp that smoltcp has room for until it gives up: a turn
      with room counts even if it is late, and a late turn without room ends the call. */
  lemma {:induction false} TakesAllRoom(len: nat, total: nat, answers: seq<Answer>)
    requires total <= len
    ensures Accepted(len, total, answers) == Min(len, total + Room(answers[..GivesUpAt(answers)]))
    decreases |answers|
  {
    var k := GivesUpAt(answers);
    if answers != [] && k > 0 {
      var first, rest := answers[..k], answers[1..];
      assert first[1..] == rest[..k - 1];
      if total < len {
        TakesAllRoom(len, total + Min(answers[0].room, len - total), rest);
      }
    }
  }
}
