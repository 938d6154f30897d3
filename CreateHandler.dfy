/**
 * The welcome-email handler: it keeps the INSERT records of a stream batch,
 * builds one mail per record, and sends all mails to the mailer queue in
 * one batch; every outcome is reported as a success-channel response.
 */
module CreateHandler {
  import opened Wrappers
  import opened StreamRecords
  import opened WelcomeMail

  /** One entry of the batch handed to the queue: `{Id, MessageBody}`. */
  datatype Entry = Entry(id: string, body: string)

  /**
   * What one invocation does: the two arguments of `callback(error, response)`
   * and the entry list of the one send call, if that call is made.
   */
  datatype Outcome = Outcome(error: Option<string>, response: string, submitted: Option<seq<Entry>>)

  const Created: string := "Mails created!"

  function ErrorResponse(e: JsError): string {
    "Error -> " + Message(e)
  }

  predicate IsInsert(r: StreamRecord) {
    r.eventName == "INSERT"
  }

  /** The INSERT records, in batch order; only INSERT records are kept, so the filter never grows the batch. */
  function Inserts(rs: seq<StreamRecord>): (r: seq<StreamRecord>)
    ensures |r| <= |rs|
    ensures forall k :: 0 <= k < |r| ==> IsInsert(r[k])
  {
    if rs == [] then []
    else Inserts(rs[..|rs| - 1]) + (if IsInsert(rs[|rs| - 1]) then [rs[|rs| - 1]] else [])
  }

  /** The mail a record pushes: one for a readable INSERT record, none otherwise. */
  function RecordMails(r: StreamRecord): seq<Mail> {
    if IsInsert(r) && ReadUser(r).Ok? then [MailOf(ReadUser(r).value)] else []
  }

  /** The contents of `mails` once the callbacks of `rs` have run: at most one mail per INSERT record. */
  function PushedMails(rs: seq<StreamRecord>): (r: seq<Mail>)
    ensures |r| <= |Inserts(rs)|
  {
    if rs == [] then [] else PushedMails(rs[..|rs| - 1]) + RecordMails(rs[|rs| - 1])
  }

  function RecordError(r: StreamRecord): Option<JsError> {
    if IsInsert(r) && ReadUser(r).Err? then Some(ReadUser(r).error) else None
  }

  /** The reason `Promise.all` rejects with: that of the first record, in batch order, whose callback threw. */
  function FirstError(rs: seq<StreamRecord>): (r: Option<JsError>)
    ensures r.Some? ==> r.value.TypeError?
  {
    if rs == [] then None
    else if FirstError(rs[..|rs| - 1]).Some? then FirstError(rs[..|rs| - 1])
    else RecordError(rs[|rs| - 1])
  }

  /** One entry per mail: the k-th has id `idOf(k)`, the k-th generated id, and the serialised k-th mail as body. */
  function Entries(mails: seq<Mail>, idOf: nat -> string): (es: seq<Entry>)
    ensures |es| == |mails|
    ensures forall k :: 0 <= k < |es| ==> es[k].id == idOf(k) && DecodeMail(es[k].body) == Some(mails[k])
  {
    seq(|mails|, k requires 0 <= k < |mails| => Entry(idOf(k), Stringify(mails[k])))
  }

  /**
   * The outcome of one invocation. `sendError` is the message of a rejected
   * send call, `None` when the queue accepts the batch.
   */
  function FanOut(event: Event, idOf: nat -> string, sendError: Option<string>): (r: Outcome)
    ensures r.error == None
    ensures r.response == Created || "Error -> " <= r.response
    ensures r.submitted.Some? ==> r.submitted.value != []
  {
    match event.records
    case None => Outcome(None, ErrorResponse(TypeError("map")), None)
    case Some(rs) =>
      match FirstError(rs)
      case Some(e) => Outcome(None, ErrorResponse(e), None)
      case None =>
        var mails := PushedMails(rs);
        if mails == [] then Outcome(None, Created, None)
        else
          var entries := Entries(mails, idOf);
          match sendError
          case Some(m) => Outcome(None, ErrorResponse(SendFailed(m)), Some(entries))
          case None => Outcome(None, Created, Some(entries))
  }

  /** The handler: loops over the records, pushing each mail onto `mails`, then sends them all at once. */
  method Handler(event: Event, idOf: nat -> string, sendError: Option<string>) returns (out: Outcome)
    ensures out == FanOut(event, idOf, sendError)
    ensures out.error == None
  {
    if event.records.None? {
      return Outcome(None, ErrorResponse(TypeError("map")), None);
    }
    var records := event.records.value;
    var mails: seq<Mail> := [];
    var failure: Option<JsError> := None;
    var i := 0;
    while i < |records|
      invariant 0 <= i <= |records|
      invariant mails == PushedMails(records[..i])
      invariant failure == FirstError(records[..i])
    {
      var record := records[i];
      PushStep(records, i);
      if record.eventName == "INSERT" {
        match ReadUser(record)
        case Err(e) =>
          if failure.None? {
            failure := Some(e);
          }
        case Ok(user) =>
          var mail := BuildMail(user);
          mails := mails + [mail];
      }
      i := i + 1;
    }
    assert records[..i] == records;
    if failure.Some? {
      return Outcome(None, ErrorResponse(failure.value), None);
    }
    var submitted: Option<seq<Entry>> := None;
    var response := Created;
    if |mails| > 0 {
      var entries := Entries(mails, idOf);
      submitted := Some(entries);
      if sendError.Some? {
        response := ErrorResponse(SendFailed(sendError.value));
      }
    }
    out := Outcome(None, response, submitted);
  }

  /** What one more callback adds to the pushed mails and to the rejection reason. */
  lemma PushStep(rs: seq<StreamRecord>, i: nat)
    requires i < |rs|
    ensures PushedMails(rs[..i + 1]) == PushedMails(rs[..i]) + RecordMails(rs[i])
    ensures FirstError(rs[..i + 1]) == if FirstError(rs[..i]).Some? then FirstError(rs[..i]) else RecordError(rs[i])
  {
    assert rs[..i + 1][..i] == rs[..i];
  }

  // ----- The INSERT filter -----

  lemma {:induction false} InsertsAppend(a: seq<StreamRecord>, b: seq<StreamRecord>)
    ensures Inserts(a + b) == Inserts(a) + Inserts(b)
    decreases |b|
  {
    if b == [] {
      assert a + b == a;
    } else {
      var b' := b[..|b| - 1];
      assert (a + b)[..|a + b| - 1] == a + b';
      assert (a + b)[|a + b| - 1] == b[|b| - 1];
      InsertsAppend(a, b');
    }
  }

  /** The filter on a batch with one more record at the end. */
  lemma {:induction false} InsertsSnoc(p: seq<StreamRecord>, x: StreamRecord)
    ensures Inserts(p + [x]) == Inserts(p) + (if IsInsert(x) then [x] else [])
  {
    assert (p + [x])[..|p + [x]| - 1] == p;
  }

  /** Each record contributes itself to the filtered list if it is an INSERT, and nothing otherwise, at its own place. */
  lemma {:induction false} InsertsSplit(rs: seq<StreamRecord>, k: nat)
    requires k < |rs|
    ensures Inserts(rs) == Inserts(rs[..k]) + (if IsInsert(rs[k]) then [rs[k]] else []) + Inserts(rs[k + 1..])
  {
    var front, x, back := rs[..k], rs[k], rs[k + 1..];
    var mid := if IsInsert(x) then [x] else [];
    assert rs == (front + [x]) + back;
    calc {
      Inserts(rs);
      Inserts((front + [x]) + back);
      { InsertsAppend(front + [x], back); }
      Inserts(front + [x]) + Inserts(back);
      { InsertsSnoc(front, x); }
      Inserts(front) + mid + Inserts(back);
    }
  }

  /** A batch made only of INSERT records survives the filter whole. */
  lemma {:induction false} InsertsKeepsInserts(rs: seq<StreamRecord>)
    requires forall k :: 0 <= k < |rs| ==> IsInsert(rs[k])
    ensures Inserts(rs) == rs
  {
    if rs != [] {
      var p := rs[..|rs| - 1];
      InsertsKeepsInserts(p);
      assert p + [rs[|rs| - 1]] == rs;
    }
  }

  /** The filter is empty exactly when the batch has no INSERT record. */
  lemma {:induction false} InsertsEmpty(rs: seq<StreamRecord>)
    ensures Inserts(rs) == [] <==> forall k :: 0 <= k < |rs| ==> !IsInsert(rs[k])
  {
    if rs != [] {
      var p := rs[..|rs| - 1];
      InsertsEmpty(p);
      if Inserts(rs) == [] {
        assert Inserts(p) == [];
        forall k | 0 <= k < |rs| ensures !IsInsert(rs[k]) {
          if k < |p| { assert rs[k] == p[k]; }
        }
      } else if Inserts(p) != [] {
        var k :| 0 <= k < |p| && IsInsert(p[k]);
        assert rs[k] == p[k];
      }
    }
  }

  // ----- Mails and errors, record by record -----

  /** Without a malformed INSERT record there is exactly one mail per INSERT record, in the same order, built from it. */
  lemma {:induction false} MailsMatchInserts(rs: seq<StreamRecord>)
    requires FirstError(rs) == None
    ensures |PushedMails(rs)| == |Inserts(rs)|
    ensures forall k :: 0 <= k < |Inserts(rs)| ==>
      ReadUser(Inserts(rs)[k]).Ok? && PushedMails(rs)[k] == MailOf(ReadUser(Inserts(rs)[k]).value)
  {
    if rs != [] {
      MailsMatchInserts(rs[..|rs| - 1]);
    }
  }

  /** The batch is read without error exactly when every INSERT record has the expected shape. */
  lemma {:induction false} FirstErrorNone(rs: seq<StreamRecord>)
    ensures FirstError(rs) == None <==> forall k :: 0 <= k < |Inserts(rs)| ==> ReadUser(Inserts(rs)[k]).Ok?
  {
    if rs != [] {
      var p, x := rs[..|rs| - 1], rs[|rs| - 1];
      FirstErrorNone(p);
      assert rs == p + [x];
      InsertsSnoc(p, x);
      assert forall k :: 0 <= k < |Inserts(p)| ==> Inserts(rs)[k] == Inserts(p)[k];
      if FirstError(p).Some? {
        var k :| 0 <= k < |Inserts(p)| && ReadUser(Inserts(p)[k]).Err?;
        assert Inserts(rs)[k] == Inserts(p)[k];
      } else if IsInsert(x) {
        assert Inserts(rs)[|Inserts(p)|] == x;
      }
    }
  }

  /** A reported error comes from the earliest malformed INSERT record. */
  lemma {:induction false} FirstErrorEarliest(rs: seq<StreamRecord>)
    requires FirstError(rs).Some?
    ensures exists k :: 0 <= k < |Inserts(rs)| && ReadUser(Inserts(rs)[k]) == Err(FirstError(rs).value)
                     && forall j :: 0 <= j < k ==> ReadUser(Inserts(rs)[j]).Ok?
  {
    var p, x := rs[..|rs| - 1], rs[|rs| - 1];
    assert rs == p + [x];
    InsertsSnoc(p, x);
    if FirstError(p).Some? {
      FirstErrorEarliest(p);
      var k :| 0 <= k < |Inserts(p)| && ReadUser(Inserts(p)[k]) == Err(FirstError(p).value)
        && forall j :: 0 <= j < k ==> ReadUser(Inserts(p)[j]).Ok?;
      assert Inserts(rs)[..|Inserts(p)|] == Inserts(p);
      assert Inserts(rs)[k] == Inserts(p)[k];
    } else {
      FirstErrorNone(p);
      var k := |Inserts(p)|;
      assert Inserts(rs) == Inserts(p) + [x];
      assert Inserts(rs)[k] == x;
      assert forall j :: 0 <= j < k ==> Inserts(rs)[j] == Inserts(p)[j];
    }
  }

  // ----- The outcome of an invocation -----

  /** No INSERT record (an empty batch included): nothing is sent and the response is the success text. */
  lemma NoInsertsNoSend(rs: seq<StreamRecord>, idOf: nat -> string, sendError: Option<string>)
    requires Inserts(rs) == []
    ensures FanOut(Event(Some(rs)), idOf, sendError) == Outcome(None, Created, None)
  {
    FirstErrorNone(rs);
    MailsMatchInserts(rs);
  }

  /**
   * A malformed INSERT record: nothing is sent, and the response carries the
   * message of the earliest malformed INSERT record.
   */
  lemma MalformedNoSend(rs: seq<StreamRecord>, k: nat, idOf: nat -> string, sendError: Option<string>)
    requires k < |Inserts(rs)| && ReadUser(Inserts(rs)[k]).Err?
    requires forall j :: 0 <= j < k ==> ReadUser(Inserts(rs)[j]).Ok?
    ensures FanOut(Event(Some(rs)), idOf, sendError) == Outcome(None, ErrorResponse(ReadUser(Inserts(rs)[k]).error), None)
  {
    FirstErrorNone(rs);
    FirstErrorEarliest(rs);
    var k' :| 0 <= k' < |Inserts(rs)| && ReadUser(Inserts(rs)[k']) == Err(FirstError(rs).value)
      && forall j :: 0 <= j < k' ==> ReadUser(Inserts(rs)[j]).Ok?;
    assert k' == k;
  }

  /** Any malformed INSERT record: nothing is sent and the response is an error response. */
  lemma MalformedSomewhereNoSend(rs: seq<StreamRecord>, k: nat, idOf: nat -> string, sendError: Option<string>)
    requires k < |Inserts(rs)| && ReadUser(Inserts(rs)[k]).Err?
    ensures var r := FanOut(Event(Some(rs)), idOf, sendError);
      r.submitted == None && "Error -> " <= r.response && r.response != Created
  {
    FirstErrorNone(rs);
    assert Created[0] != "Error -> "[0];
  }

  /**
   * At least one INSERT record and none malformed: exactly one send, whose
   * entries follow the INSERT records one to one and in order, the k-th
   * with the k-th generated id and the serialised mail of the k-th record.
   * The response is the success text unless the send is rejected.
   */
  lemma OneSend(rs: seq<StreamRecord>, idOf: nat -> string, sendError: Option<string>)
    requires Inserts(rs) != []
    requires forall k :: 0 <= k < |Inserts(rs)| ==> ReadUser(Inserts(rs)[k]).Ok?
    ensures var r := FanOut(Event(Some(rs)), idOf, sendError);
      r.submitted.Some?
      && |r.submitted.value| == |Inserts(rs)|
      && (forall k :: 0 <= k < |Inserts(rs)| ==>
            r.submitted.value[k].id == idOf(k)
            && r.submitted.value[k].body == Stringify(MailOf(ReadUser(Inserts(rs)[k]).value))
            && DecodeMail(r.submitted.value[k].body) == Some(MailOf(ReadUser(Inserts(rs)[k]).value)))
      && r.response == (if sendError.None? then Created else "Error -> " + sendError.value)
  {
    FirstErrorNone(rs);
    MailsMatchInserts(rs);
    var mails := PushedMails(rs);
    assert mails != [];
    var es := Entries(mails, idOf);
    var expected := if sendError.None? then Created else ErrorResponse(SendFailed(sendError.value));
    assert FanOut(Event(Some(rs)), idOf, sendError) == Outcome(None, expected, Some(es));
  }

  /** With distinct generated ids, the ids within the one batch are distinct, as the queue requires. */
  lemma DistinctEntryIds(mails: seq<Mail>, idOf: nat -> string)
    requires forall i, j :: 0 <= i < j < |mails| ==> idOf(i) != idOf(j)
    ensures var es := Entries(mails, idOf);
      forall i, j :: 0 <= i < j < |es| ==> es[i].id != es[j].id
  {
  }

  /** Distinct mails get distinct message bodies. */
  lemma DistinctBodies(mails: seq<Mail>, idOf: nat -> string, i: nat, j: nat)
    requires i < |mails| && j < |mails| && mails[i] != mails[j]
    ensures Entries(mails, idOf)[i].body != Entries(mails, idOf)[j].body
  {
  }
}
