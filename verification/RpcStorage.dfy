/**
 File access over RPC: the write transaction that spans several messages, as
 functions on the server's state, with its history.
 */
module RpcStorage {
  import opened Options
  import opened RpcFraming

  type Path = string

  type Files = map<Path, Bytes>

  type Entry = string

  datatype Status = Ok | Interrupted | Failure(code: nat)

  datatype Content = Empty | Data(bytes: Bytes) | Listing(entries: seq<Entry>)

  datatype Reply = Reply(id: nat, status: Status, hasNext: bool, content: Content)

  /** What the storage answers: does the file open, how much of a chunk is written, the file's error code. */
  datatype Answer = Answer(opens: bool, written: nat, error: nat)

  /** A write message, another command with its outcome, or the end of the session. */
  datatype Request =
    | Write(id: nat, path: Path, data: Bytes, hasNext: bool, answer: Answer)
    | Command(outcome: Files, answers: seq<Reply>)
    | Free

  /** History: a transaction begins, takes a chunk, is answered, or is dropped; other commands are answered. */
  datatype Event =
    | Began(id: nat, path: Path)
    | Chunk(data: Bytes)
    | Replied(id: nat, status: Status)
    | Dropped(id: nat)
    | Others(answers: seq<Reply>)

  /** `handle` and `records` are what a transaction holds: its file and its extra "storage" record. */
  datatype Server = Server(
    writing: bool,
    handle: Option<Path>,
    id: nat,
    records: nat,
    files: Files,
    replies: seq<Reply>,
    log: seq<Event>
  )

  function Started(files: Files): Server {
    Server(false, None, 0, 0, files, [], [])
  }

  /** Code 0 is FSE_OK. */
  function FileStatus(error: nat): Status {
    if error == 0 then Ok else Failure(error)
  }

  function Answered(s: Server, status: Status): Server {
    s.(replies := s.replies + [Reply(s.id, status, false, Empty)], log := s.log + [Replied(s.id, status)])
  }

  /** Closes the file and gives the record back. */
  function Released(s: Server): Server {
    s.(writing := false, handle := None, records := if s.records > 0 then s.records - 1 else 0)
  }

  function Reset(s: Server): Server {
    if s.writing then Released(Answered(s, Interrupted)) else s
  }

  function Freed(s: Server): Server {
    if s.writing then Released(s.(log := s.log + [Dropped(s.id)])) else s
  }

  /** Opening truncates, or fails and leaves the files alone. */
  function Open(s: Server, id: nat, path: Path, opens: bool): Server {
    s.(writing := true, handle := Some(path), id := id, records := s.records + 1,
       files := if opens then s.files[path := []] else s.files,
       log := s.log + [Began(id, path)])
  }

  function Appended(s: Server, data: Bytes, written: nat): Server
    requires written <= |data|
  {
    match s.handle
    case None => s
    case Some(path) =>
      var was := if path in s.files then s.files[path] else [];
      s.(files := s.files[path := was + data[..written]], log := s.log + [Chunk(data)])
  }

  /** The request continues the transaction in progress. */
  predicate Continues(s: Server, id: nat) {
    s.writing && id == s.id
  }

  function AfterWrite(s: Server, r: Request): Server
    requires r.Write? && r.answer.written <= |r.data|
  {
    var begun := if Continues(s, r.id) then s else Open(Reset(s), r.id, r.path, r.answer.opens);
    if Continues(s, r.id) || r.answer.opens then
      var wrote := Appended(begun, r.data, r.answer.written);
      if r.answer.written != |r.data| then Released(Answered(wrote, FileStatus(r.answer.error)))
      else if r.hasNext then wrote
      else Released(Answered(wrote, Ok))
    else
      Released(Answered(begun, FileStatus(r.answer.error)))
  }

  /** Every other command ends a transaction in progress before it does anything. */
  function AfterCommand(s: Server, outcome: Files, answers: seq<Reply>): Server {
    var t := Reset(s);
    t.(files := outcome, replies := t.replies + answers, log := t.log + [Others(answers)])
  }

  predicate Fits(r: Request) {
    r.Write? ==> r.answer.written <= |r.data|
  }

  function Next(s: Server, r: Request): Server
    requires Fits(r)
  {
    match r
    case Write(_, _, _, _, _) => AfterWrite(s, r)
    case Command(outcome, answers) => AfterCommand(s, outcome, answers)
    case Free => Freed(s)
  }

  function Run(s: Server, requests: seq<Request>): Server
    requires forall r | r in requests :: Fits(r)
  {
    if requests == [] then s else Next(Run(s, requests[..|requests| - 1]), requests[|requests| - 1])
  }

  // ----- what a history says -----

  /** The transaction left open by a history. */
  function Pending(log: seq<Event>): Option<(nat, Path)> {
    if log == [] then None else
      match log[|log| - 1]
      case Began(id, path) => Some((id, path))
      case Chunk(_) => Pending(log[..|log| - 1])
      case _ => None
  }

  /** The chunks of the last transaction, concatenated. */
  function Chunks(log: seq<Event>): Bytes {
    if log == [] then [] else
      match log[|log| - 1]
      case Began(_, _) => []
      case Chunk(data) => Chunks(log[..|log| - 1]) + data
      case _ => Chunks(log[..|log| - 1])
  }

  /**
   Transactions do not overlap: one begins only when none is open, chunks and
   the one answer fall inside it, the answer carries its command id, and other
   commands are answered outside.
   */
  predicate Bracketed(log: seq<Event>) {
    log == [] ||
    var before := log[..|log| - 1];
    && Bracketed(before)
    && match log[|log| - 1]
       case Began(_, _) => Pending(before) == None
       case Chunk(_) => Pending(before).Some?
       case Replied(id, _) => Pending(before).Some? && Pending(before).value.0 == id
       case Dropped(id) => Pending(before).Some? && Pending(before).value.0 == id
       case Others(_) => Pending(before) == None
  }

  /** The replies a history accounts for. */
  function Sent(log: seq<Event>): seq<Reply> {
    if log == [] then [] else
      Sent(log[..|log| - 1]) +
      match log[|log| - 1]
      case Replied(id, status) => [Reply(id, status, false, Empty)]
      case Others(answers) => answers
      case _ => []
  }

  lemma {:induction false} Pushed(log: seq<Event>, e: Event)
    ensures (log + [e])[..|log|] == log && (log + [e])[|log|] == e
  {
  }

  // ----- the invariant -----

  /** A handle and an extra record are held exactly while writing, and the history tells what is being written. */
  predicate Holdings(s: Server) {
    && s.handle.Some? == s.writing
    && s.records == (if s.writing then 1 else 0)
    && Pending(s.log) == if s.handle.Some? then Some((s.id, s.handle.value)) else None
  }

  predicate Sound(s: Server) {
    && Holdings(s)
    && Bracketed(s.log)
    && s.replies == Sent(s.log)
    && (s.writing ==> s.handle.value in s.files && s.files[s.handle.value] == Chunks(s.log))
  }

  /** The same, with the file left out: what holds right after an open that failed. */
  predicate NearlySound(s: Server) {
    Holdings(s) && Bracketed(s.log) && s.replies == Sent(s.log)
  }

  lemma {:induction false} AnswerEnds(s: Server, status: Status)
    requires NearlySound(s) && s.writing
    ensures Sound(Released(Answered(s, status)))
  {
    Pushed(s.log, Replied(s.id, status));
  }

  lemma {:induction false} ResetKeepsSound(s: Server)
    requires Sound(s)
    ensures Sound(Reset(s)) && !Reset(s).writing
  {
    if s.writing {
      AnswerEnds(s, Interrupted);
    }
  }

  lemma {:induction false} OpenBegins(s: Server, id: nat, path: Path, opens: bool)
    requires Sound(s) && !s.writing
    ensures var t := Open(s, id, path, opens); NearlySound(t) && t.writing && (opens ==> Sound(t))
  {
    Pushed(s.log, Began(id, path));
  }

  lemma {:induction false} AppendExtends(s: Server, data: Bytes, written: nat)
    requires Sound(s) && s.writing && written <= |data|
    ensures var t := Appended(s, data, written);
            && NearlySound(t) && t.writing && t.handle == s.handle
            && t.files[t.handle.value] == Chunks(s.log) + data[..written]
            && Chunks(t.log) == Chunks(s.log) + data
            && (written == |data| ==> Sound(t))
  {
    Pushed(s.log, Chunk(data));
    assert written == |data| ==> data[..written] == data;
  }

  lemma {:induction false} WriteKeepsSound(s: Server, r: Request)
    requires Sound(s) && r.Write? && Fits(r)
    ensures Sound(AfterWrite(s, r))
  {
    var begun := if Continues(s, r.id) then s else Open(Reset(s), r.id, r.path, r.answer.opens);
    if !Continues(s, r.id) {
      ResetKeepsSound(s);
      OpenBegins(Reset(s), r.id, r.path, r.answer.opens);
    }
    if Continues(s, r.id) || r.answer.opens {
      AppendExtends(begun, r.data, r.answer.written);
      var wrote := Appended(begun, r.data, r.answer.written);
      AnswerEnds(wrote, FileStatus(r.answer.error));
      AnswerEnds(wrote, Ok);
    } else {
      AnswerEnds(begun, FileStatus(r.answer.error));
    }
  }

  lemma {:induction false} NextKeepsSound(s: Server, r: Request)
    requires Sound(s) && Fits(r)
    ensures Sound(Next(s, r))
  {
    match r
    case Write(_, _, _, _, _) =>
      WriteKeepsSound(s, r);
    case Command(_, answers) =>
      ResetKeepsSound(s);
      Pushed(Reset(s).log, Others(answers));
    case Free =>
      Pushed(s.log, Dropped(s.id));
  }

  /**
   Over every sequence of requests: file and record are held exactly while
   writing, every transaction is answered once under its own id before anything
   else is, and an open transaction's file holds exactly its chunks so far.
   */
  lemma {:induction false} EveryRunIsSound(files: Files, requests: seq<Request>)
    requires forall r | r in requests :: Fits(r)
    ensures Sound(Run(Started(files), requests))
  {
    if requests != [] {
      var last := |requests| - 1;
      EveryRunIsSound(files, requests[..last]);
      assert requests[last] in requests;
      NextKeepsSound(Run(Started(files), requests[..last]), requests[last]);
    }
  }

  // ----- which answer ends a transaction -----

  /**
   A transaction that another command, or a write under another id, breaks into
   is answered as interrupted, under its own id, before anything else is sent.
   */
  lemma {:induction false} InterruptedFirst(s: Server, r: Request)
    requires Sound(s) && s.writing && Fits(r) && (r.Command? || (r.Write? && r.id != s.id))
    ensures var t := Next(s, r);
            && s.replies + [Reply(s.id, Interrupted, false, Empty)] <= t.replies
            && s.log + [Replied(s.id, Interrupted)] <= t.log
            && (r.Command? ==> t.replies == s.replies + [Reply(s.id, Interrupted, false, Empty)] + r.answers)
  {
  }

  /** With no transaction open, a command is answered by its own answers alone; the end of a session by nothing. */
  lemma {:induction false} NothingToInterrupt(s: Server, r: Request)
    requires Sound(s) && Fits(r)
    ensures r.Command? && !s.writing ==> Next(s, r).replies == s.replies + r.answers
    ensures r.Command? ==> Next(s, r).files == r.outcome && !Next(s, r).writing
    ensures r == Free ==> Next(s, r).replies == s.replies && Next(s, r).files == s.files && !Next(s, r).writing
  {
  }

  /** The `j`th event of the history, added by this request, answers a transaction as the request deserves. */
  predicate Deserved(s: Server, r: Request, e: Event) {
    e.Replied? ==>
      && (e.status == Ok ==> r.Write? && e.id == r.id)
      && (e.status == Interrupted ==> s.writing && e.id == s.id && (r.Command? || (r.Write? && r.id != s.id)))
      && (e.status.Failure? ==> r.Write? && e.id == r.id && e.status.code == r.answer.error)
  }

  /** Every event that `log` has beyond the history of `s` is deserved. */
  predicate AllDeserved(s: Server, r: Request, log: seq<Event>) {
    s.log <= log && forall j :: |s.log| <= j < |log| ==> Deserved(s, r, log[j])
  }

  lemma {:induction false} WriteAnswersDeserved(s: Server, r: Request, begun: Server)
    requires r.Write? && Fits(r) && AllDeserved(s, r, begun.log) && begun.id == r.id
    requires begun == if Continues(s, r.id) then s else Open(Reset(s), r.id, r.path, r.answer.opens)
    ensures AllDeserved(s, r, AfterWrite(s, r).log)
  {
  }

  /** Every request adds to the history, and only answers it deserves. */
  lemma {:induction false} AnswersAreDeserved(s: Server, r: Request)
    requires Fits(r)
    ensures AllDeserved(s, r, Next(s, r).log)
  {
    if r.Write? {
      WriteAnswersDeserved(s, r, if Continues(s, r.id) then s else Open(Reset(s), r.id, r.path, r.answer.opens));
    }
  }

  /** The `i`th request added the `j`th event, and is a write under its id. */
  predicate EarnedBy(s: Server, requests: seq<Request>, i: nat, j: nat, id: nat)
    requires i < |requests| && forall r | r in requests :: Fits(r)
  {
    && requests[i].Write? && requests[i].id == id
    && |Run(s, requests[..i]).log| <= j < |Run(s, requests[..i + 1]).log|
  }

  /** Over every run, a transaction is answered Ok only by a write message of its own id. */
  lemma {:induction false} EachOkIsEarned(s: Server, requests: seq<Request>, j: nat, id: nat)
    requires forall r | r in requests :: Fits(r)
    requires |s.log| <= j < |Run(s, requests).log| && Run(s, requests).log[j] == Replied(id, Ok)
    ensures exists i :: 0 <= i < |requests| && EarnedBy(s, requests, i, j, id)
  {
    if requests != [] {
      var n := |requests| - 1;
      var before := requests[..n];
      assert requests[n] in requests;
      AnswersAreDeserved(Run(s, before), requests[n]);
      if j < |Run(s, before).log| {
        EachOkIsEarned(s, before, j, id);
        var i :| 0 <= i < n && EarnedBy(s, before, i, j, id);
        assert before[..i] == requests[..i] && before[..i + 1] == requests[..i + 1];
        assert EarnedBy(s, requests, i, j, id);
      } else {
        assert requests[..n + 1] == requests;
        assert EarnedBy(s, requests, n, j, id);
      }
    }
  }

  function CountOf(log: seq<Event>, p: Event -> bool): nat {
    if log == [] then 0 else CountOf(log[..|log| - 1], p) + if p(log[|log| - 1]) then 1 else 0
  }

  /** As many answers as transactions, but for one still open and those dropped with the session. */
  lemma {:induction false} OneReplyEach(log: seq<Event>)
    requires Bracketed(log)
    ensures CountOf(log, (e: Event) => e.Began?)
            == CountOf(log, (e: Event) => e.Replied?) + CountOf(log, (e: Event) => e.Dropped?)
               + if Pending(log).Some? then 1 else 0
  {
    if log != [] {
      OneReplyEach(log[..|log| - 1]);
    }
  }

  /** The transaction's file once a write request has been processed on an open file. */
  function TargetOf(s: Server, r: Request): Path
    requires r.Write? && (s.writing ==> s.handle.Some?)
  {
    if Continues(s, r.id) then s.handle.value else r.path
  }

  /** The chunks the transaction has been given, this request's included. */
  function GivenTo(s: Server, r: Request): Bytes
    requires r.Write?
  {
    (if Continues(s, r.id) then Chunks(s.log) else []) + r.data
  }

  /** The request finds its file open, or opens it. */
  predicate Opens(s: Server, r: Request)
    requires r.Write?
  {
    Continues(s, r.id) || r.answer.opens
  }

  /**
   After a write request on an open file, the file equals the chunks given since
   it was opened exactly when this request's chunk was written in full, and the
   transaction goes on exactly when more is announced as well.  A request whose
   open fails ends its transaction and leaves the files alone.
   */
  lemma {:induction false} FileIsChunksExactlyWhen(s: Server, r: Request)
    requires Sound(s) && r.Write? && Fits(r)
    ensures var t := AfterWrite(s, r);
            && (Opens(s, r) ==>
                  && TargetOf(s, r) in t.files
                  && (t.files[TargetOf(s, r)] == GivenTo(s, r)) == (r.answer.written == |r.data|)
                  && |t.files[TargetOf(s, r)]| == |GivenTo(s, r)| - |r.data| + r.answer.written)
            && (!Opens(s, r) ==> t.files == s.files)
            && t.writing == (Opens(s, r) && r.answer.written == |r.data| && r.hasNext)
  {
    var begun := if Continues(s, r.id) then s else Open(Reset(s), r.id, r.path, r.answer.opens);
    if !Continues(s, r.id) {
      ResetKeepsSound(s);
      OpenBegins(Reset(s), r.id, r.path, r.answer.opens);
      assert Chunks(begun.log) == [];
    }
    if Opens(s, r) {
      AppendExtends(begun, r.data, r.answer.written);
    }
  }

  /**
   A write request that ends its transaction is answered once, under its id, and
   Ok exactly when the file opened and took the chunk in full, or when the file
   reports no error whatever happened.
   */
  lemma {:induction false} AnsweredOkExactlyWhen(s: Server, r: Request)
    requires Sound(s) && r.Write? && Fits(r) && !AfterWrite(s, r).writing
    ensures var t := AfterWrite(s, r);
            && |t.replies| == |s.replies| + (if s.writing && !Continues(s, r.id) then 2 else 1)
            && s.replies <= t.replies
            && var last := t.replies[|t.replies| - 1];
               last == Reply(r.id, last.status, false, Empty)
               && (last.status == Ok <==> (Opens(s, r) && r.answer.written == |r.data|) || r.answer.error == 0)
               && (last.status != Ok ==> last.status == Failure(r.answer.error))
  {
  }

  /** A short write whose file reports no error is answered Ok although the file lacks the end of the chunk. */
  lemma {:induction false} ShortWriteAnsweredOk() returns (s: Server, r: Request)
    ensures Sound(s) && r.Write? && Fits(r) && !r.hasNext
    ensures AfterWrite(s, r).replies == [Reply(r.id, Ok, false, Empty)]
    ensures AfterWrite(s, r).files == map[r.path := []] && r.data != []
  {
    s := Started(map[]);
    r := Write(1, "/ext/a", [7], false, Answer(true, 0, 0));
    assert [7][..0] == [];
    assert AfterWrite(s, r).files == map["/ext/a" := []];
  }

  /** A chunk written in full joins the ones before it; the last one ends the transaction with an Ok. */
  lemma {:induction false} ChunkTaken(s: Server, r: Request)
    requires Sound(s) && r.Write? && Fits(r) && (Continues(s, r.id) || (!s.writing && r.answer.opens))
    requires r.answer.written == |r.data|
    ensures var t := AfterWrite(s, r);
            && (r.hasNext ==> t.id == r.id && t.handle == Some(TargetOf(s, r)) && Chunks(t.log) == GivenTo(s, r))
            && t.replies == s.replies + if r.hasNext then [] else [Reply(r.id, Ok, false, Empty)]
  {
    var begun := if Continues(s, r.id) then s else Open(s, r.id, r.path, r.answer.opens);
    if !Continues(s, r.id) {
      OpenBegins(s, r.id, r.path, r.answer.opens);
      assert Chunks(begun.log) == [];
    }
    AppendExtends(begun, r.data, r.answer.written);
  }

  /** A failed open or a short write is answered with the file's error at once. */
  lemma {:induction false} FailureIsAnswered(t: Server, r: Request)
    requires r.Write? && Fits(r) && (Continues(t, r.id) || !t.writing)
    requires !Opens(t, r) || r.answer.written < |r.data|
    ensures AfterWrite(t, r).replies == t.replies + [Reply(r.id, FileStatus(r.answer.error), false, Empty)]
  {
  }

  lemma {:induction false} RunPush(s: Server, requests: seq<Request>, r: Request)
    requires forall q | q in requests :: Fits(q)
    requires Fits(r)
    ensures Run(s, requests + [r]) == Next(Run(s, requests), r)
  {
    assert (requests + [r])[..|requests|] == requests;
  }
}
