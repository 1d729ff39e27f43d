/** A whole file written over RPC: a sequence of chunks under one command id, whatever the storage answers. */
module RpcUploads {
  import opened Options
  import opened RpcFraming
  import opened RpcStorage

  function Concat(chunks: seq<Bytes>): Bytes {
    if chunks == [] then [] else Concat(chunks[..|chunks| - 1]) + chunks[|chunks| - 1]
  }

  /** An answer for every chunk, none of which writes more than it was given. */
  predicate Answers(chunks: seq<Bytes>, answers: seq<Answer>) {
    |answers| == |chunks| && forall i :: 0 <= i < |chunks| ==> answers[i].written <= |chunks[i]|
  }

  /** The messages for chunks that are not the last: each announces another. */
  function Sends(id: nat, path: Path, chunks: seq<Bytes>, answers: seq<Answer>): (requests: seq<Request>)
    requires Answers(chunks, answers)
    ensures forall r | r in requests :: Fits(r)
  {
    if chunks == [] then [] else
      var n := |chunks| - 1;
      Sends(id, path, chunks[..n], answers[..n]) + [Write(id, path, chunks[n], true, answers[n])]
  }

  /** The messages a client sends for one file. */
  function Upload(id: nat, path: Path, chunks: seq<Bytes>, answers: seq<Answer>): (requests: seq<Request>)
    requires Answers(chunks, answers) && chunks != []
    ensures forall r | r in requests :: Fits(r)
  {
    var n := |chunks| - 1;
    Sends(id, path, chunks[..n], answers[..n]) + [Write(id, path, chunks[n], false, answers[n])]
  }

  /** The first open and every write succeed. */
  predicate AllGood(chunks: seq<Bytes>, answers: seq<Answer>)
    requires |answers| == |chunks|
  {
    && (chunks != [] ==> answers[0].opens)
    && forall i :: 0 <= i < |chunks| ==> answers[i].written == |chunks[i]|
  }

  predicate NeverOpens(answers: seq<Answer>) {
    forall i :: 0 <= i < |answers| ==> !answers[i].opens
  }

  /**
   The chunk that opened the transaction still good after all of them, if there
   is one: a failed open or a short write ends a transaction, and the next chunk
   opens the file anew.
   */
  function Start(chunks: seq<Bytes>, answers: seq<Answer>): (start: Option<nat>)
    requires |answers| == |chunks|
    ensures start.Some? ==> start.value < |chunks|
  {
    if chunks == [] then None else
      var n := |chunks| - 1;
      var before := Start(chunks[..n], answers[..n]);
      if answers[n].written != |chunks[n]| then None
      else if before.Some? then before
      else if answers[n].opens then Some(n)
      else None
  }

  function FileAt(s: Server, path: Path): Option<Bytes> {
    if path in s.files then Some(s.files[path]) else None
  }

  // ----- sequences -----

  lemma {:induction false} ConcatPush(chunks: seq<Bytes>, data: Bytes)
    ensures Concat(chunks + [data]) == Concat(chunks) + data
  {
    assert (chunks + [data])[..|chunks|] == chunks;
  }

  lemma {:induction false} ConcatSplits(chunks: seq<Bytes>, k: nat)
    requires k <= |chunks|
    ensures Concat(chunks) == Concat(chunks[..k]) + Concat(chunks[k..])
  {
    if k == |chunks| {
      assert chunks[..k] == chunks;
    } else {
      var n := |chunks| - 1;
      var front, data := chunks[..n], chunks[n];
      ConcatSplits(front, k);
      assert front[..k] == chunks[..k] && chunks[k..] == front[k..] + [data];
      ConcatPush(front[k..], data);
    }
  }

  /** One more chunk behind the others. */
  lemma {:induction false} Behind(chunks: seq<Bytes>, data: Bytes, k: nat)
    requires k <= |chunks|
    ensures (chunks + [data])[k..] == chunks[k..] + [data]
    ensures Concat((chunks + [data])[k..]) == Concat(chunks[k..]) + data
    ensures |Concat((chunks + [data])[k..])| <= |Concat(chunks + [data])|
  {
    ConcatPush(chunks[k..], data);
    ConcatSplits(chunks + [data], k);
  }

  lemma {:induction false} StartPush(chunks: seq<Bytes>, answers: seq<Answer>, data: Bytes, answer: Answer)
    requires |answers| == |chunks|
    ensures Start(chunks + [data], answers + [answer])
            == if answer.written != |data| then None
               else if Start(chunks, answers).Some? then Start(chunks, answers)
               else if answer.opens then Some(|chunks|) else None
    ensures AllGood(chunks + [data], answers + [answer])
            == (AllGood(chunks, answers) && (chunks == [] ==> answer.opens) && answer.written == |data|)
    ensures NeverOpens(answers + [answer]) == (NeverOpens(answers) && !answer.opens)
  {
    var cs, rs := chunks + [data], answers + [answer];
    assert cs[..|chunks|] == chunks && rs[..|answers|] == answers;
    assert forall i :: 0 <= i < |chunks| ==> cs[i] == chunks[i] && rs[i] == answers[i];
    assert cs[|chunks|] == data && rs[|answers|] == answer;
  }

  /** All is good exactly when the first chunk's transaction is the one that lasts. */
  lemma {:induction false} GoodStart(chunks: seq<Bytes>, answers: seq<Answer>)
    requires |answers| == |chunks|
    ensures AllGood(chunks, answers) <==> chunks == [] || Start(chunks, answers) == Some(0)
    ensures Start(chunks, answers).Some? ==> !NeverOpens(answers)
  {
    if chunks != [] {
      var n := |chunks| - 1;
      GoodStart(chunks[..n], answers[..n]);
      StartPush(chunks[..n], answers[..n], chunks[n], answers[n]);
      assert chunks == chunks[..n] + [chunks[n]] && answers == answers[..n] + [answers[n]];
    }
  }

  // ----- under way -----

  /** The file while no transaction is open: as it was before, or shorter than what has been sent. */
  predicate FileFallsShort(s: Server, t: Server, path: Path, chunks: seq<Bytes>, answers: seq<Answer>) {
    if NeverOpens(answers) then FileAt(t, path) == FileAt(s, path)
    else path in t.files && |t.files[path]| < |Concat(chunks)|
  }

  /** Where an upload stands after chunks that each announced another. */
  predicate Stands(s: Server, t: Server, id: nat, path: Path, chunks: seq<Bytes>, answers: seq<Answer>) {
    && |answers| == |chunks| && Sound(t) && s.replies <= t.replies
    && (AllGood(chunks, answers) <==> t.replies == s.replies)
    && match Start(chunks, answers)
       case Some(k) => t.writing && t.id == id && t.handle == Some(path) && Chunks(t.log) == Concat(chunks[k..])
       case None => !t.writing && FileFallsShort(s, t, path, chunks, answers)
  }

  lemma {:induction false} TakenStands(s: Server, t: Server, chunks: seq<Bytes>, answers: seq<Answer>, r: Request)
    requires r.Write? && Fits(r) && r.hasNext && Stands(s, t, r.id, r.path, chunks, answers)
    requires Opens(t, r) && r.answer.written == |r.data|
    ensures Stands(s, AfterWrite(t, r), r.id, r.path, chunks + [r.data], answers + [r.answer])
  {
    WriteKeepsSound(t, r);
    ChunkTaken(t, r);
    FileIsChunksExactlyWhen(t, r);
    StartPush(chunks, answers, r.data, r.answer);
    GoodStart(chunks, answers);
    GoodStart(chunks + [r.data], answers + [r.answer]);
    Behind(chunks, r.data, if t.writing then Start(chunks, answers).value else |chunks|);
    assert Concat([]) + r.data == r.data;
    assert t.replies + [] == t.replies;
  }

  lemma {:induction false} FailedStands(s: Server, t: Server, chunks: seq<Bytes>, answers: seq<Answer>, r: Request)
    requires r.Write? && Fits(r) && r.hasNext && Stands(s, t, r.id, r.path, chunks, answers)
    requires !Opens(t, r) || r.answer.written < |r.data|
    ensures Stands(s, AfterWrite(t, r), r.id, r.path, chunks + [r.data], answers + [r.answer])
  {
    WriteKeepsSound(t, r);
    FailureIsAnswered(t, r);
    FileIsChunksExactlyWhen(t, r);
    StartPush(chunks, answers, r.data, r.answer);
    GoodStart(chunks, answers);
    GoodStart(chunks + [r.data], answers + [r.answer]);
    Behind(chunks, r.data, if t.writing then Start(chunks, answers).value else |chunks|);
    ConcatPush(chunks, r.data);
  }

  lemma {:induction false} FrontAnswers(chunks: seq<Bytes>, answers: seq<Answer>)
    requires Answers(chunks, answers) && chunks != []
    ensures var n := |chunks| - 1;
            && Answers(chunks[..n], answers[..n]) && answers[n].written <= |chunks[n]|
            && chunks == chunks[..n] + [chunks[n]] && answers == answers[..n] + [answers[n]]
  {
  }

  lemma {:induction false} SendsPush(s: Server, id: nat, path: Path, chunks: seq<Bytes>, answers: seq<Answer>)
    requires Answers(chunks, answers) && chunks != []
    ensures var n := |chunks| - 1;
            && Answers(chunks[..n], answers[..n])
            && Run(s, Sends(id, path, chunks, answers))
               == AfterWrite(Run(s, Sends(id, path, chunks[..n], answers[..n])), Write(id, path, chunks[n], true, answers[n]))
  {
    var n := |chunks| - 1;
    FrontAnswers(chunks, answers);
    RunPush(s, Sends(id, path, chunks[..n], answers[..n]), Write(id, path, chunks[n], true, answers[n]));
  }

  lemma {:induction false} NextStands(s: Server, t: Server, chunks: seq<Bytes>, answers: seq<Answer>, r: Request,
                                      more: seq<Bytes>, answered: seq<Answer>)
    requires r.Write? && Fits(r) && r.hasNext && Stands(s, t, r.id, r.path, chunks, answers)
    requires more == chunks + [r.data] && answered == answers + [r.answer]
    ensures Stands(s, AfterWrite(t, r), r.id, r.path, more, answered)
  {
    if Opens(t, r) && r.answer.written == |r.data| {
      TakenStands(s, t, chunks, answers, r);
    } else {
      FailedStands(s, t, chunks, answers, r);
    }
  }

  lemma {:induction false} NoneStands(s: Server, id: nat, path: Path)
    requires Sound(s) && !s.writing
    ensures Stands(s, s, id, path, [], [])
  {
  }

  /** After any chunks that each announce another, the server stands as their answers say. */
  lemma {:induction false} SendsStand(s: Server, id: nat, path: Path, chunks: seq<Bytes>, answers: seq<Answer>)
    returns (t: Server)
    requires Sound(s) && !s.writing && Answers(chunks, answers)
    ensures t == Run(s, Sends(id, path, chunks, answers))
    ensures Stands(s, t, id, path, chunks, answers)
  {
    if chunks == [] {
      t := s;
      NoneStands(s, id, path);
    } else {
      var n := |chunks| - 1;
      FrontAnswers(chunks, answers);
      t := SendsStand(s, id, path, chunks[..n], answers[..n]);
      SendsPush(s, id, path, chunks, answers);
      var r := Write(id, path, chunks[n], true, answers[n]);
      NextStands(s, t, chunks[..n], answers[..n], r, chunks, answers);
      t := AfterWrite(t, r);
    }
  }

  // ----- the whole file -----

  /** The chunk is taken: its file is open or opens, and it is written in full. */
  predicate LastGood(chunks: seq<Bytes>, answers: seq<Answer>)
    requires |answers| == |chunks| > 0
  {
    var n := |chunks| - 1;
    (n == 0 ==> answers[n].opens) && answers[n].written == |chunks[n]|
  }

  /** The transaction that takes the last chunk has been given all the data: nothing was lost before it began. */
  predicate NothingLost(chunks: seq<Bytes>, answers: seq<Answer>)
    requires |answers| == |chunks|
  {
    Start(chunks, answers).Some? && Concat(chunks[..Start(chunks, answers).value]) == []
  }

  lemma {:induction false} LastRun(s: Server, id: nat, path: Path, chunks: seq<Bytes>, answers: seq<Answer>)
    requires Answers(chunks, answers) && chunks != []
    ensures var n := |chunks| - 1;
            && Answers(chunks[..n], answers[..n])
            && Run(s, Upload(id, path, chunks, answers))
               == AfterWrite(Run(s, Sends(id, path, chunks[..n], answers[..n])), Write(id, path, chunks[n], false, answers[n]))
  {
    var n := |chunks| - 1;
    FrontAnswers(chunks, answers);
    RunPush(s, Sends(id, path, chunks[..n], answers[..n]), Write(id, path, chunks[n], false, answers[n]));
  }

  /** An upload is the chunks before the last, and then the last one. */
  lemma {:induction false} UploadPush(s: Server, id: nat, path: Path, chunks: seq<Bytes>, answers: seq<Answer>)
    returns (t: Server, r: Request)
    requires Sound(s) && !s.writing && Answers(chunks, answers) && chunks != []
    ensures var n := |chunks| - 1;
            && r == Write(id, path, chunks[n], false, answers[n]) && Fits(r)
            && Stands(s, t, id, path, chunks[..n], answers[..n])
            && chunks == chunks[..n] + [r.data] && answers == answers[..n] + [r.answer]
    ensures Run(s, Upload(id, path, chunks, answers)) == AfterWrite(t, r)
  {
    var n := |chunks| - 1;
    FrontAnswers(chunks, answers);
    LastRun(s, id, path, chunks, answers);
    t := SendsStand(s, id, path, chunks[..n], answers[..n]);
    r := Write(id, path, chunks[n], false, answers[n]);
  }

  /**
   A file sent to an idle server is answered with a single Ok exactly when every
   chunk but the last is taken and the last is taken too, or fails while its
   file reports no error.
   */
  lemma {:induction false} SingleOkExactlyWhen(s: Server, id: nat, path: Path, chunks: seq<Bytes>, answers: seq<Answer>)
    requires Sound(s) && !s.writing && Answers(chunks, answers) && chunks != []
    ensures var t := Run(s, Upload(id, path, chunks, answers));
            var n := |chunks| - 1;
            t.replies == s.replies + [Reply(id, Ok, false, Empty)]
            <==> AllGood(chunks[..n], answers[..n]) && (LastGood(chunks, answers) || answers[n].error == 0)
  {
    var n := |chunks| - 1;
    var t, r := UploadPush(s, id, path, chunks, answers);
    GoodStart(chunks[..n], answers[..n]);
    FileIsChunksExactlyWhen(t, r);
    AnsweredOkExactlyWhen(t, r);
    var after := AfterWrite(t, r);
    if AllGood(chunks[..n], answers[..n]) {
      assert after.replies == s.replies + [after.replies[|s.replies|]];
    }
  }

  /** The file after the last chunk, if that chunk is taken: all that was given to its transaction. */
  lemma {:induction false} LastTaken(s: Server, t: Server, chunks: seq<Bytes>, answers: seq<Answer>, r: Request)
    requires r.Write? && Fits(r) && !r.hasNext && Stands(s, t, r.id, r.path, chunks, answers)
    requires Opens(t, r) && r.answer.written == |r.data|
    ensures var all, start := chunks + [r.data], Start(chunks + [r.data], answers + [r.answer]);
            && start.Some? && start.value <= |chunks|
            && FileAt(AfterWrite(t, r), r.path) == Some(Concat(all[start.value..]))
            && !NeverOpens(answers + [r.answer])
  {
    FileIsChunksExactlyWhen(t, r);
    StartPush(chunks, answers, r.data, r.answer);
    GoodStart(chunks + [r.data], answers + [r.answer]);
    Behind(chunks, r.data, if t.writing then Start(chunks, answers).value else |chunks|);
    assert Concat([]) + r.data == r.data;
  }

  /** The file after the last chunk, if that chunk fails: as before the upload, or short of what was sent. */
  lemma {:induction false} LastFailed(s: Server, t: Server, chunks: seq<Bytes>, answers: seq<Answer>, r: Request)
    requires r.Write? && Fits(r) && !r.hasNext && Stands(s, t, r.id, r.path, chunks, answers)
    requires !Opens(t, r) || r.answer.written < |r.data|
    ensures Start(chunks + [r.data], answers + [r.answer]) == None
    ensures FileFallsShort(s, AfterWrite(t, r), r.path, chunks + [r.data], answers + [r.answer])
  {
    FileIsChunksExactlyWhen(t, r);
    StartPush(chunks, answers, r.data, r.answer);
    GoodStart(chunks, answers);
    Behind(chunks, r.data, if t.writing then Start(chunks, answers).value else |chunks|);
    ConcatPush(chunks, r.data);
  }

  lemma {:induction false} TakenIsWhole(s: Server, t: Server, chunks: seq<Bytes>, answers: seq<Answer>, r: Request)
    requires r.Write? && Fits(r) && !r.hasNext && Stands(s, t, r.id, r.path, chunks, answers)
    requires Opens(t, r) && r.answer.written == |r.data|
    ensures FileAt(AfterWrite(t, r), r.path) == Some(Concat(chunks + [r.data]))
       <==> NothingLost(chunks + [r.data], answers + [r.answer])
    ensures !NeverOpens(answers + [r.answer])
  {
    LastTaken(s, t, chunks, answers, r);
    var all, k := chunks + [r.data], Start(chunks + [r.data], answers + [r.answer]).value;
    ConcatSplits(all, k);
    assert |Concat(all)| == |Concat(all[..k])| + |Concat(all[k..])|;
    assert Concat(all[..k]) == [] ==> Concat(all[..k]) + Concat(all[k..]) == Concat(all[k..]);
  }

  lemma {:induction false} FailedIsWhole(s: Server, t: Server, chunks: seq<Bytes>, answers: seq<Answer>, r: Request)
    requires r.Write? && Fits(r) && !r.hasNext && Stands(s, t, r.id, r.path, chunks, answers)
    requires !Opens(t, r) || r.answer.written < |r.data|
    ensures FileAt(AfterWrite(t, r), r.path) == Some(Concat(chunks + [r.data]))
       <==> NeverOpens(answers + [r.answer]) && FileAt(s, r.path) == Some(Concat(chunks + [r.data]))
    ensures !NothingLost(chunks + [r.data], answers + [r.answer])
  {
    LastFailed(s, t, chunks, answers, r);
  }

  predicate EndsOk(t: Server, id: nat) {
    t.replies != [] && t.replies[|t.replies| - 1] == Reply(id, Ok, false, Empty)
  }

  /** When the upload has lost nothing, or found its content in a file that never opened and reports no error. */
  predicate Delivers(s: Server, path: Path, chunks: seq<Bytes>, answers: seq<Answer>)
    requires |answers| == |chunks| > 0
  {
    || NothingLost(chunks, answers)
    || (NeverOpens(answers) && answers[|answers| - 1].error == 0 && FileAt(s, path) == Some(Concat(chunks)))
  }

  lemma {:induction false} EndsWholeExactlyWhen(s: Server, t: Server, before: seq<Bytes>, answered: seq<Answer>, r: Request,
                                                chunks: seq<Bytes>, answers: seq<Answer>)
    requires r.Write? && Fits(r) && !r.hasNext && Stands(s, t, r.id, r.path, before, answered)
    requires chunks == before + [r.data] && answers == answered + [r.answer]
    ensures EndsOk(AfterWrite(t, r), r.id) && FileAt(AfterWrite(t, r), r.path) == Some(Concat(chunks))
       <==> Delivers(s, r.path, chunks, answers)
  {
    FileIsChunksExactlyWhen(t, r);
    AnsweredOkExactlyWhen(t, r);
    if Opens(t, r) && r.answer.written == |r.data| {
      TakenIsWhole(s, t, before, answered, r);
    } else {
      FailedIsWhole(s, t, before, answered, r);
    }
  }

  /**
   A whole upload, whatever the storage answers, ends with an Ok and the file
   equal to all the chunks exactly when the transaction that takes the last
   chunk has lost nothing before it; or when the file never opened, reports no
   error, and had that content already.
   */
  lemma {:induction false} OkWithWholeFileExactlyWhen(s: Server, id: nat, path: Path, chunks: seq<Bytes>, answers: seq<Answer>)
    requires Sound(s) && !s.writing && Answers(chunks, answers) && chunks != []
    ensures var t := Run(s, Upload(id, path, chunks, answers));
            EndsOk(t, id) && FileAt(t, path) == Some(Concat(chunks)) <==> Delivers(s, path, chunks, answers)
  {
    var n := |chunks| - 1;
    var t, r := UploadPush(s, id, path, chunks, answers);
    EndsWholeExactlyWhen(s, t, chunks[..n], answers[..n], r, chunks, answers);
  }

  /** When all goes well there is a single Ok and the file is the concatenation of the chunks. */
  lemma {:induction false} GoodUploadIsWhole(s: Server, id: nat, path: Path, chunks: seq<Bytes>, answers: seq<Answer>)
    requires Sound(s) && !s.writing && Answers(chunks, answers) && chunks != [] && AllGood(chunks, answers)
    ensures var t := Run(s, Upload(id, path, chunks, answers));
            t.replies == s.replies + [Reply(id, Ok, false, Empty)] && FileAt(t, path) == Some(Concat(chunks))
  {
    var n := |chunks| - 1;
    GoodStart(chunks, answers);
    assert chunks == chunks[..n] + [chunks[n]] && answers == answers[..n] + [answers[n]];
    StartPush(chunks[..n], answers[..n], chunks[n], answers[n]);
    SingleOkExactlyWhen(s, id, path, chunks, answers);
    OkWithWholeFileExactlyWhen(s, id, path, chunks, answers);
    assert chunks[..0] == [];
  }

  /**
   A chunk that follows a failed one under the same id starts the file anew:
   after a first chunk taken and a second cut short, the third is answered Ok
   and is all the file holds.
   */
  lemma {:induction false} FailedUploadRestarts(s: Server, id: nat, path: Path, first: Bytes, second: Bytes, third: Bytes,
                                                written: nat, error: nat)
    requires Sound(s) && !s.writing && written < |second| && error != 0
    ensures var one := AfterWrite(s, Write(id, path, first, true, Answer(true, |first|, 0)));
            var two := AfterWrite(one, Write(id, path, second, true, Answer(true, written, error)));
            var three := AfterWrite(two, Write(id, path, third, false, Answer(true, |third|, 0)));
            && FileAt(one, path) == Some(first) && one.replies == s.replies
            && two.replies == s.replies + [Reply(id, Failure(error), false, Empty)]
            && FileAt(three, path) == Some(third) && third != first + second + third
            && three.replies == s.replies + [Reply(id, Failure(error), false, Empty)] + [Reply(id, Ok, false, Empty)]
  {
    var a := Write(id, path, first, true, Answer(true, |first|, 0));
    var b := Write(id, path, second, true, Answer(true, written, error));
    var c := Write(id, path, third, false, Answer(true, |third|, 0));
    ChunkTaken(s, a);
    FileIsChunksExactlyWhen(s, a);
    WriteKeepsSound(s, a);
    assert [] + first == first && s.replies + [] == s.replies;
    var one := AfterWrite(s, a);
    FailureIsAnswered(one, b);
    FileIsChunksExactlyWhen(one, b);
    WriteKeepsSound(one, b);
    var two := AfterWrite(one, b);
    ChunkTaken(two, c);
    FileIsChunksExactlyWhen(two, c);
    assert [] + third == third;
    assert |first + second + third| > |third|;
  }
}
