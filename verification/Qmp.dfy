/** The QMP client of the VM runtime (src/vm.rs): commands and replies on a
    stream that also carries asynchronous events. */
module Qmp {
  import opened Wrappers
  import opened Rpc

  /** One decoded line. The client only looks at these members. */
  datatype Message = Message(greeting: bool, event: bool, error: Option<string>, ret: Option<Json>)

  /** What the next read yields; `Broken` stands for a timeout, an I/O error or a line that is not JSON. */
  datatype Read = Line(msg: Message) | Broken

  /** How one `execute` ends. */
  datatype Answer = Returned(v: Json) | Raised(error: string) | Failed

  /** A line that answers a command: it is no event, and has an error or a return. */
  predicate IsReply(r: Read) {
    r.Line? && !r.msg.event && (r.msg.error.Some? || r.msg.ret.Some?)
  }

  /** What it answers: the error if there is one, otherwise the return. */
  function AnswerIn(r: Read): Answer
    requires IsReply(r)
  {
    if r.msg.error.Some? then Raised(r.msg.error.value) else Returned(r.msg.ret.value)
  }

  /** The replies on a stream, in order. */
  function Replies(input: seq<Read>): seq<Answer> {
    if input == [] then []
    else (if IsReply(input[0]) then [AnswerIn(input[0])] else []) + Replies(input[1..])
  }

  /** The reading loop of `execute` on the rest of the stream: its answer and what is left to read. */
  function AwaitReply(input: seq<Read>): (Answer, seq<Read>) {
    if input == [] then (Failed, [])
    else
      match input[0]
      case Broken => (Failed, input[1..])
      case Line(Message(_, event, error, ret)) =>
        if event then AwaitReply(input[1..])
        else if error.Some? then (Raised(error.value), input[1..])
        else if ret.Some? then (Returned(ret.value), input[1..])
        else AwaitReply(input[1..])
  }

  /** The command ends at read `i`: the first reply, or the first read that fails. */
  ghost predicate EndsAt(input: seq<Read>, i: nat) {
    && i < |input| && (input[i].Broken? || IsReply(input[i]))
    && forall j :: 0 <= j < i ==> input[j].Line? && !IsReply(input[j])
  }

  /** The loop takes everything up to the first reply or failing read, and answers with it. */
  lemma {:induction false} AwaitsFirst(input: seq<Read>, i: nat)
    requires EndsAt(input, i)
    ensures AwaitReply(input) == (if input[i].Broken? then Failed else AnswerIn(input[i]), input[i + 1..])
  {
    if i > 0 {
      var rest := input[1..];
      assert input[0].Line? && !IsReply(input[0]);
      assert forall j :: 0 <= j < i ==> rest[j] == input[j + 1];
      AwaitsFirst(rest, i - 1);
      assert rest[i - 1 + 1..] == input[i + 1..];
    }
  }

  /** A stream without either runs dry. */
  lemma {:induction false} RunsDry(input: seq<Read>)
    requires forall j :: 0 <= j < |input| ==> input[j].Line? && !IsReply(input[j])
    ensures AwaitReply(input) == (Failed, [])
  {
    if input != [] {
      RunsDry(input[1..]);
    }
  }

  lemma AwaitsFirstOf(input: seq<Read>)
    ensures forall i: nat :: EndsAt(input, i) ==>
              AwaitReply(input) == (if input[i].Broken? then Failed else AnswerIn(input[i]), input[i + 1..])
  {
    forall i: nat | EndsAt(input, i)
      ensures AwaitReply(input) == (if input[i].Broken? then Failed else AnswerIn(input[i]), input[i + 1..])
    {
      AwaitsFirst(input, i);
    }
  }

  /** One command: if it cannot be written nothing is read. */
  function Exchange(input: seq<Read>, written: bool): (Answer, seq<Read>) {
    if written then AwaitReply(input) else (Failed, input)
  }

  /** Commands on one connection; `writes` says which of them get written. */
  function Session(input: seq<Read>, writes: seq<bool>): (seq<Answer>, seq<Read>)
    decreases |writes|
  {
    if writes == [] then ([], input)
    else
      var (first, rest) := Exchange(input, writes[0]);
      var (others, end) := Session(rest, writes[1..]);
      ([first] + others, end)
  }

  /** The answers that are replies. */
  function Answered(answers: seq<Answer>): seq<Answer> {
    if answers == [] then []
    else (if answers[0].Failed? then [] else [answers[0]]) + Answered(answers[1..])
  }

  lemma {:induction false} ExecuteTakesOneReply(input: seq<Read>)
    ensures var (answer, rest) := AwaitReply(input);
            Replies(input) == (if answer.Failed? then [] else [answer]) + Replies(rest)
  {
    if input != [] {
      ExecuteTakesOneReply(input[1..]);
    }
  }

  /** Whatever the interleaving and whatever fails: the answers, failures left
      out, followed by the replies still unread, are the server's replies. None
      is lost, repeated, reordered or taken early. */
  lemma {:induction false} RepliesConserved(input: seq<Read>, writes: seq<bool>)
    ensures var (answers, rest) := Session(input, writes);
            |answers| == |writes| && Answered(answers) + Replies(rest) == Replies(input)
    decreases |writes|
  {
    if writes != [] {
      var (first, rest) := Exchange(input, writes[0]);
      ExecuteTakesOneReply(input);
      RepliesConserved(rest, writes[1..]);
      var (others, end) := Session(rest, writes[1..]);
      assert ([first] + others)[1..] == others;
    }
  }

  lemma {:induction false} AllAnswered(answers: seq<Answer>)
    requires forall i :: 0 <= i < |answers| ==> !answers[i].Failed?
    ensures Answered(answers) == answers
  {
    if answers != [] {
      AllAnswered(answers[1..]);
    }
  }

  lemma {:induction false} NothingFails(input: seq<Read>, writes: seq<bool>)
    requires forall i :: 0 <= i < |input| ==> input[i].Line?
    requires |Replies(input)| >= |writes| && false !in writes
    ensures forall i :: 0 <= i < |writes| ==> i < |Session(input, writes).0| && !Session(input, writes).0[i].Failed?
    decreases |writes|
  {
    if writes != [] {
      assert writes[0] in writes;
      ExecuteTakesOneReply(input);
      ExecuteSucceeds(input);
      var (first, rest) := AwaitReply(input);
      NothingFails(rest, writes[1..]);
      RepliesConserved(rest, writes[1..]);
      assert Session(input, writes).0 == [first] + Session(rest, writes[1..]).0;
    }
  }

  lemma {:induction false} ExecuteSucceeds(input: seq<Read>)
    requires forall i :: 0 <= i < |input| ==> input[i].Line?
    requires Replies(input) != []
    ensures !AwaitReply(input).0.Failed?
    ensures forall i :: 0 <= i < |AwaitReply(input).1| ==> AwaitReply(input).1[i].Line?
  {
    if !IsReply(input[0]) {
      ExecuteSucceeds(input[1..]);
    }
  }

  /** Pairing: with no failing write or read and a reply per command, the i-th
      command gets exactly the i-th reply and later replies stay unread. */
  lemma PairedWithReplies(input: seq<Read>, writes: seq<bool>)
    requires forall i :: 0 <= i < |input| ==> input[i].Line?
    requires |Replies(input)| >= |writes| && false !in writes
    ensures Session(input, writes).0 == Replies(input)[..|writes|]
    ensures Replies(Session(input, writes).1) == Replies(input)[|writes|..]
  {
    RepliesConserved(input, writes);
    NothingFails(input, writes);
    AllAnswered(Session(input, writes).0);
  }

  function Failures(answers: seq<Answer>, i: nat): (k: nat)
    requires i <= |answers|
    ensures k <= i
  {
    if i == 0 then 0 else Failures(answers, i - 1) + (if answers[i - 1].Failed? then 1 else 0)
  }

  lemma {:induction false} AnsweredAt(answers: seq<Answer>, i: nat)
    requires i < |answers| && !answers[i].Failed?
    ensures i - Failures(answers, i) < |Answered(answers)| && Answered(answers)[i - Failures(answers, i)] == answers[i]
  {
    if i > 0 {
      AnsweredAt(answers[1..], i - 1);
      FailuresShift(answers, i);
    }
  }

  lemma {:induction false} FailuresShift(answers: seq<Answer>, i: nat)
    requires 0 < i <= |answers|
    ensures Failures(answers, i) == (if answers[0].Failed? then 1 else 0) + Failures(answers[1..], i - 1)
  {
    if i > 1 {
      FailuresShift(answers, i - 1);
    }
  }

  /** With failing writes and reads the pairing is off by one per failure: an answered
      command gets the reply numbered by the commands answered before it. */
  lemma ReplyNumber(input: seq<Read>, writes: seq<bool>, i: nat)
    requires i < |writes|
    ensures var answers := Session(input, writes).0;
            && |answers| == |writes|
            && (!answers[i].Failed? ==>
                  && i - Failures(answers, i) < |Replies(input)|
                  && answers[i] == Replies(input)[i - Failures(answers, i)])
  {
    RepliesConserved(input, writes);
    var answers := Session(input, writes).0;
    if !answers[i].Failed? {
      AnsweredAt(answers, i);
    }
  }

  class QmpClient {
    var input: seq<Read>
    var sent: seq<string>

    /** Negotiation came first. */
    ghost predicate Negotiated()
      reads this
    {
      sent != [] && sent[0] == "qmp_capabilities"
    }

    constructor Open(stream: seq<Read>)
      ensures input == stream && sent == []
    {
      input, sent := stream, [];
    }

    method ReadJson() returns (r: Read)
      modifies this`input
      ensures old(input) == [] ==> r == Broken && input == []
      ensures old(input) != [] ==> r == old(input)[0] && input == old(input)[1..]
    {
      if input == [] {
        return Broken;
      }
      r := input[0];
      input := input[1..];
    }

    method Execute(command: string, written: bool) returns (answer: Answer)
      modifies this
      ensures sent == old(sent) + (if written then [command] else [])
      ensures (answer, input) == Exchange(old(input), written)
      ensures written ==> forall i: nat :: EndsAt(old(input), i) ==>
                input == old(input)[i + 1..] && answer == if old(input)[i].Broken? then Failed else AnswerIn(old(input)[i])
      ensures written ==> forall i: nat :: EndsAt(old(input), i) && old(input)[i].Line? && old(input)[i].msg.error.Some? ==>
                answer == Raised(old(input)[i].msg.error.value)
    {
      AwaitsFirstOf(input);
      if !written {
        return Failed;
      }
      sent := sent + [command];
      while true
        invariant AwaitReply(input) == AwaitReply(old(input))
        invariant sent == old(sent) + [command]
        decreases |input|
      {
        var r := ReadJson();
        if r.Broken? {
          return Failed;
        }
        if r.msg.event {
          continue;
        }
        if r.msg.error.Some? {
          return Raised(r.msg.error.value);
        }
        if r.msg.ret.Some? {
          return Returned(r.msg.ret.value);
        }
      }
    }
  }

  /** `connect`: the greeting, then capabilities negotiation, and only then a usable client. */
  method Connect(stream: seq<Read>, written: bool) returns (client: QmpClient?)
    ensures client != null ==> fresh(client) && client.sent == ["qmp_capabilities"]
    ensures client != null <==>
              stream != [] && stream[0].Line? && stream[0].msg.greeting && Exchange(stream[1..], written).0.Returned?
    ensures client != null ==> client.input == AwaitReply(stream[1..]).1
  {
    var c := new QmpClient.Open(stream);
    var greeting := c.ReadJson();
    if greeting.Broken? || !greeting.msg.greeting {
      return null;
    }
    var answer := c.Execute("qmp_capabilities", written);
    if !answer.Returned? {
      return null;
    }
    return c;
  }

  function Written(commands: seq<string>, writes: seq<bool>): seq<string>
    requires |writes| == |commands|
  {
    if commands == [] then []
    else Written(commands[..|commands| - 1], writes[..|commands| - 1])
         + if writes[|commands| - 1] then [commands[|commands| - 1]] else []
  }

  /** Commands that are all written are sent in order; ones that are not are not; and one batch
      after another is sent as such. */
  lemma {:induction false} WrittenExactly(a: seq<string>, b: seq<string>, x: seq<bool>, y: seq<bool>)
    requires |x| == |a| && |y| == |b|
    ensures false !in x ==> Written(a, x) == a
    ensures true !in x ==> Written(a, x) == []
    ensures Written(a + b, x + y) == Written(a, x) + Written(b, y)
    decreases |a| + |b|
  {
    if b != [] {
      var n := |b| - 1;
      WrittenExactly(a, b[..n], x, y[..n]);
      assert (a + b)[..|a| + n] == a + b[..n] && (x + y)[..|a| + n] == x + y[..n];
    } else {
      assert a + b == a && x + y == x;
      if a != [] {
        var n := |a| - 1;
        WrittenExactly(a[..n], [], x[..n], []);
        assert a == a[..n] + [a[n]];
      }
    }
  }

  /** Any commands on a connected client: their answers are the session's, and
      negotiation stays the first thing it ever sent. */
  method RunCommands(client: QmpClient, commands: seq<string>, writes: seq<bool>) returns (answers: seq<Answer>)
    requires client.Negotiated() && |writes| == |commands|
    modifies client
    ensures client.Negotiated() && client.sent == old(client.sent) + Written(commands, writes)
    ensures (answers, client.input) == Session(old(client.input), writes)
  {
    answers := [];
    for i := 0 to |commands|
      invariant client.sent == old(client.sent) + Written(commands[..i], writes[..i])
      invariant (answers, client.input) == Session(old(client.input), writes[..i])
    {
      assert commands[..i + 1][..i] == commands[..i] && writes[..i + 1][..i] == writes[..i];
      var a := client.Execute(commands[i], writes[i]);
      SessionSnoc(old(client.input), writes[..i], writes[i]);
      assert writes[..i + 1] == writes[..i] + [writes[i]];
      answers := answers + [a];
    }
    assert commands[..|commands|] == commands && writes[..|commands|] == writes;
  }

  lemma {:induction false} SessionSnoc(input: seq<Read>, writes: seq<bool>, written: bool)
    ensures var (answers, rest) := Session(input, writes);
            Session(input, writes + [written]) == (answers + [Exchange(rest, written).0], Exchange(rest, written).1)
    decreases |writes|
  {
    assert writes != [] ==> (writes + [written])[1..] == writes[1..] + [written];
    if writes != [] {
      var (first, rest) := Exchange(input, writes[0]);
      SessionSnoc(rest, writes[1..], written);
      var (others, end) := Session(rest, writes[1..]);
      assert [first] + (others + [Exchange(end, written).0]) == [first] + others + [Exchange(end, written).0];
    } else {
      var first := Exchange(input, written).0;
      assert (writes + [written])[1..] == [] && (writes + [written])[0] == written;
      assert [first] + [] == [] + [first];
    }
  }
}
