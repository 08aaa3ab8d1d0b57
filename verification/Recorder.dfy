/**
 The response recorder: what it records of a handler's calls, and what the client is sent.
 Element type T stands for whatever a body is made of.
 */
module Recorder {
  import opened Values

  datatype WriterCall<T> = Header(code: int) | Body(chunk: seq<T>)

  /** What has gone out to the client; no status means the header is still unsent. */
  datatype Wire<T> = Wire(status: Option<int>, body: seq<T>)

  datatype Recording<T> = Recording(statusCode: int, wroteHeader: bool, body: seq<T>)

  /** Interim responses, which do not use up the one final header. */
  predicate Informational(code: int) {
    100 <= code < 200 && code != 101
  }

  /** How the HTTP server's response writer treats a call. */
  function Send<T>(w: Wire<T>, c: WriterCall<T>): Wire<T> {
    match c
    case Header(code) =>
      if w.status.None? && !Informational(code) then w.(status := Some(code)) else w
    case Body(chunk) =>
      Wire(if w.status.None? then Some(200) else w.status, w.body + chunk)
  }

  /** The status the client sees once the handler has returned. */
  function FinalStatus<T>(w: Wire<T>): int {
    match w.status case Some(code) => code case None => 200
  }

  /** The recorder passes every body chunk on, but only the first header. */
  function Pass<T>(r: Recording<T>, w: Wire<T>, c: WriterCall<T>): (Recording<T>, Wire<T>) {
    match c
    case Header(code) =>
      if r.wroteHeader then (r, w)
      else (r.(statusCode := code, wroteHeader := true), Send(w, c))
    case Body(chunk) => (r.(body := r.body + chunk), Send(w, c))
  }

  function Served<T>(calls: seq<WriterCall<T>>): (Recording<T>, Wire<T>) {
    if |calls| == 0 then (Recording(200, false, []), Wire(None, []))
    else
      var (r, w) := Served(calls[..|calls| - 1]);
      Pass(r, w, calls[|calls| - 1])
  }

  /** What a retry is sent from a recording. */
  function Replay<T>(r: Recording<T>): Wire<T> {
    Send(Send(Wire(None, []), Header(r.statusCode)), Body(r.body))
  }

  function FirstHeader<T>(calls: seq<WriterCall<T>>): (i: nat)
    ensures i <= |calls|
    ensures i < |calls| ==> calls[i].Header?
    ensures forall k :: 0 <= k < i ==> calls[k].Body?
  {
    if |calls| == 0 then 0
    else
      var i := FirstHeader(calls[..|calls| - 1]);
      if i < |calls| - 1 || calls[|calls| - 1].Header? then i else |calls|
  }

  /** Everything the handler wrote, in order. */
  function Chunks<T>(calls: seq<WriterCall<T>>): seq<T> {
    if |calls| == 0 then []
    else
      var last := calls[|calls| - 1];
      Chunks(calls[..|calls| - 1]) + if last.Body? then last.chunk else []
  }

  /** Recorder and client after any handler, told by its first header and its chunks alone. */
  lemma {:induction false} ServedByFirstHeader<T>(calls: seq<WriterCall<T>>)
    ensures
      var (r, w) := Served(calls);
      var h := FirstHeader(calls);
      && r.body == w.body == Chunks(calls)
      && r.wroteHeader == (h < |calls|)
      && r.statusCode == (if h < |calls| then calls[h].code else 200)
      && FinalStatus(w) == (if h == 0 < |calls| && !(100 <= calls[0].code <= 199 && calls[0].code != 101) then calls[0].code else 200)
      && (w.status.None? ==> |calls| == 0 || (h == 0 && 100 <= calls[0].code <= 199 && calls[0].code != 101))
  {
    if |calls| > 0 {
      ServedByFirstHeader(calls[..|calls| - 1]);
    }
  }

  /**
   The recording is what the client was sent exactly when the handler wrote no header, or a 200,
   or a final one before any of the body.
   */
  lemma {:induction false} RecordingFaithfulExactly<T>(calls: seq<WriterCall<T>>)
    ensures
      var (r, w) := Served(calls);
      var h := FirstHeader(calls);
      (r.statusCode == FinalStatus(w) && r.body == w.body) <==>
      (h == |calls| || calls[h].code == 200 || (h == 0 && !(100 <= calls[h].code <= 199 && calls[h].code != 101)))
  {
    ServedByFirstHeader(calls);
  }

  /**
   A replay repeats what the first client got exactly when the handler did not start its body
   before a first header with a final status other than 200.
   */
  lemma {:induction false} ReplayFaithfulExactly<T>(calls: seq<WriterCall<T>>)
    ensures
      var (r, w) := Served(calls);
      var h := FirstHeader(calls);
      (FinalStatus(Replay(r)) == FinalStatus(w) && Replay(r).body == w.body) <==>
      !(0 < h < |calls| && calls[h].code != 200 && !(100 <= calls[h].code <= 199 && calls[h].code != 101))
  {
    ServedByFirstHeader(calls);
  }

  /** Writing the body first makes a later error status reach only the recording. */
  lemma BodyFirstIsMisrecorded()
    ensures
      var (r, w) := Served([Body([1]), Header(500)]);
      FinalStatus(w) == 200 && FinalStatus(Replay(r)) == 500
  {
  }

  class ClientConnection<T> {
    var sent: Wire<T>

    constructor ()
      ensures sent == Wire(None, [])
    {
      sent := Wire(None, []);
    }

    method WriteHeader(code: int)
      modifies this
      ensures sent == Send(old(sent), Header(code))
    {
      if sent.status.None? && !Informational(code) {
        sent := sent.(status := Some(code));
      }
    }

    method Write(chunk: seq<T>)
      modifies this
      ensures sent == Send(old(sent), Body(chunk))
    {
      if sent.status.None? {
        sent := sent.(status := Some(200));
      }
      sent := sent.(body := sent.body + chunk);
    }
  }

  class ResponseRecorder<T> {
    const writer: ClientConnection<T>
    var statusCode: int
    var wroteHeader: bool
    var body: seq<T>

    ghost function Recorded(): Recording<T>
      reads this
    {
      Recording(statusCode, wroteHeader, body)
    }

    constructor (writer: ClientConnection<T>)
      ensures this.writer == writer && Recorded() == Recording(200, false, [])
    {
      this.writer := writer;
      statusCode, wroteHeader, body := 200, false, [];
    }

    method WriteHeader(code: int)
      modifies this, writer
      ensures (Recorded(), writer.sent) == Pass(old(Recorded()), old(writer.sent), Header(code))
    {
      if !wroteHeader {
        statusCode := code;
        wroteHeader := true;
        writer.WriteHeader(code);
      }
    }

    method Write(chunk: seq<T>)
      modifies this, writer
      ensures (Recorded(), writer.sent) == Pass(old(Recorded()), old(writer.sent), Body(chunk))
    {
      body := body + chunk;
      writer.Write(chunk);
    }
  }
}
