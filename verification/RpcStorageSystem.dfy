/**
 The storage side of an RPC session: the object the handlers update, each
 handler tied to the state functions of RpcStorage and the replies of RpcReplies.
 */
module RpcStorageService {
  import opened Options
  import opened RpcFraming
  import opened Pages
  import opened RpcStorage
  import opened RpcReplies

  datatype State = Idle | Writing

  class RpcStorageSystem {
    var state: State
    var file: Option<Path>
    var currentCommandId: nat
    var records: nat
    var files: Files
    var replies: seq<Reply>
    ghost var log: seq<Event>

    ghost function Value(): Server
      reads this
    {
      Server(state == Writing, file, currentCommandId, records, files, replies, log)
    }

    ghost predicate Valid()
      reads this
    {
      Sound(Value())
    }

    constructor (files: Files)
      ensures Valid() && Value() == Started(files)
    {
      state, file, currentCommandId, records := Idle, None, 0, 0;
      this.files, replies, log := files, [], [];
    }

    method Send(status: Status)
      modifies this`replies, this`log
      ensures Value() == Answered(old(Value()), status)
    {
      replies := replies + [Reply(currentCommandId, status, false, Empty)];
      log := log + [Replied(currentCommandId, status)];
    }

    /** Ends a transaction in progress, answering it if asked to, and gives back what it holds. */
    method ResetState(sendError: bool)
      requires records == if state == Writing then 1 else 0
      modifies this`state, this`file, this`records, this`replies, this`log
      ensures sendError ==> Value() == Reset(old(Value()))
      ensures !sendError ==> Value() == if old(state) == Idle then old(Value()) else Released(old(Value()))
      ensures state == Idle && records == 0
      ensures replies == old(replies) + if sendError && old(state) == Writing
                                        then [Reply(old(currentCommandId), Interrupted, false, Empty)] else []
    {
      if state != Idle {
        if sendError {
          Send(Interrupted);
        }
        if state == Writing {
          file := None;
          records := records - 1;
        }
        state := Idle;
      }
    }

    /** Interrupts another command's transaction, and opens the file unless this command is already writing it. */
    method BeginWrite(id: nat, path: Path, opens: bool) returns (result: bool)
      requires Holdings(Value())
      modifies this
      ensures result == (Continues(old(Value()), id) || opens)
      ensures Value() == if Continues(old(Value()), id) then old(Value()) else Open(Reset(old(Value())), id, path, opens)
    {
      result := true;
      if id != currentCommandId && state == Writing {
        ResetState(true);
      }
      if state != Writing {
        records := records + 1;
        file := Some(path);
        currentCommandId := id;
        state := Writing;
        result := opens;
        if result {
          files := files[path := []];
        }
        log := log + [Began(id, path)];
      }
    }

    method WriteChunk(data: Bytes, written: nat)
      requires file.Some? && written <= |data|
      modifies this`files, this`log
      ensures Value() == Appended(old(Value()), data, written)
    {
      var was := if file.value in files then files[file.value] else [];
      files := files[file.value := was + data[..written]];
      log := log + [Chunk(data)];
    }

    /** Answers the transaction and gives back what it holds. */
    method Finish(status: Status)
      requires state == Writing && records == 1
      modifies this
      ensures Value() == Released(Answered(old(Value()), status))
    {
      Send(status);
      ResetState(false);
    }

    /** One message of a write command. */
    method WriteProcess(id: nat, path: Path, data: Bytes, hasNext: bool, answer: Answer)
      requires Valid() && answer.written <= |data|
      modifies this
      ensures Valid() && Value() == AfterWrite(old(Value()), Write(id, path, data, hasNext, answer))
    {
      WriteKeepsSound(Value(), Write(id, path, data, hasNext, answer));
      var result := BeginWrite(id, path, answer.opens);
      assert records == 1;
      if result {
        WriteChunk(data, answer.written);
        result := answer.written == |data|;
        if result && !hasNext {
          Finish(Ok);
        }
      }
      if !result {
        Finish(FileStatus(answer.error));
      }
    }

    /** Reads a file block by block, one message a block. */
    method ReadProcess(id: nat, path: Path, opens: bool, good: nat, error: nat)
      requires Valid() && (opens ==> path in files)
      modifies this
      ensures Valid()
      ensures Value() == AfterCommand(old(Value()), old(files),
                                      if opens then ReadReplies(id, old(files)[path], good, error) else [Failed(id, error)])
    {
      ghost var answers := if opens then ReadReplies(id, files[path], good, error) else [Failed(id, error)];
      NextKeepsSound(Value(), Command(files, answers));
      ResetState(true);
      records := records + 1;
      if opens {
        SendFile(id, files[path], good, error);
      } else {
        replies := replies + [Failed(id, error)];
      }
      log := log + [Others(answers)];
      records := records - 1;
    }

    /** The pages of an open file, and the error if one falls short. */
    method SendFile(id: nat, content: Bytes, good: nat, error: nat)
      modifies this`replies
      ensures replies == old(replies) + ReadReplies(id, content, good, error)
    {
      var result := SendPages(id, content, good);
      if !result {
        replies := replies + [Failed(id, error)];
      }
    }

    /** The block loop: sends every block that arrives in full, stops at the first that does not. */
    method SendPages(id: nat, content: Bytes, good: nat) returns (result: bool)
      modifies this`replies
      ensures result == !FallsShort(content, good)
      ensures var all := Messages(id, DataPages(Paged(content, MAX_DATA_SIZE)));
              replies == old(replies) + if result then all else all[..good]
    {
      ghost var out := [];
      PagingStart(id, content);
      var left, sent, more := content, 0, true;
      result := true;
      while more
        invariant replies == old(replies) + out
        invariant more ==> result && Paging(out, id, content, sent, left) && (sent <= good || content == [])
        invariant !more ==> result == !FallsShort(content, good)
        invariant !more && result ==> out == Messages(id, DataPages(Paged(content, MAX_DATA_SIZE)))
        invariant !more && !result ==> out == Messages(id, DataPages(Paged(content, MAX_DATA_SIZE)))[..good]
        decreases more, |left|
      {
        var size: nat := if |left| <= MAX_DATA_SIZE then |left| else MAX_DATA_SIZE;
        var read := if size > 0 && sent >= good then size - 1 else size;
        PagingNext(out, id, content, sent, left, size);
        result := read == size;
        if result {
          ghost var last := Reply(id, Ok, left[size..] != [], Data(left[..size]));
          Appends(old(replies), out, last);
          replies := replies + [Reply(id, Ok, |left| > size, Data(left[..size]))];
          out := out + [last];
          sent := sent + 1;
        }
        left := left[size..];
        more := left != [] && result;
      }
    }

    /** Lists a directory, at most eight entries a message; "/" is answered without the storage. */
    method ListProcess(id: nat, path: Path, opens: bool, entries: seq<Entry>, error: nat)
      requires Valid()
      modifies this
      ensures Valid()
      ensures Value() == AfterCommand(old(Value()), old(files), ListAnswers(id, path, opens, entries, error))
    {
      NextKeepsSound(Value(), Command(files, ListAnswers(id, path, opens, entries, error)));
      ResetState(true);
      if path == "/" {
        replies := replies + [RootListing(id)];
      } else {
        records := records + 1;
        if opens {
          SendListing(id, entries);
        } else {
          replies := replies + [Failed(id, error)];
        }
        records := records - 1;
      }
      log := log + [Others(ListAnswers(id, path, opens, entries, error))];
    }

    /** The directory loop: a full message goes out only when another entry turns up. */
    method SendListing(id: nat, entries: seq<Entry>)
      modifies this`replies
      ensures replies == old(replies) + ListReplies(id, entries)
    {
      ghost var rest, out, sent := entries, [], 0;
      ListedStart(id, entries);
      var list: seq<Entry> := [];
      var next := 0;
      while next < |entries|
        invariant next <= |entries| && |list| <= LIST_SIZE
        invariant rest == list + entries[next..] && Listed(out, id, entries, sent, rest)
        invariant replies == old(replies) + out
      {
        if |list| == LIST_SIZE {
          ListedFlush(out, id, entries, sent, list, entries[next..]);
          Appends(old(replies), out, Reply(id, Ok, true, Listing(list)));
          replies := replies + [Reply(id, Ok, true, Listing(list))];
          out, sent, rest := out + [Reply(id, Ok, true, Listing(list))], sent + 1, entries[next..];
          list := [];
          assert rest == list + entries[next..];
        }
        EntryMoves(list, entries, next);
        list := list + [entries[next]];
        next := next + 1;
      }
      assert rest == list;
      ListedEnd(out, id, entries, sent, list);
      Appends(old(replies), out, Reply(id, Ok, false, Listing(list)));
      replies := replies + [Reply(id, Ok, false, Listing(list))];
    }

    /** The end of the session: an open transaction is dropped without an answer. */
    method Free()
      requires Valid()
      modifies this
      ensures Valid() && Value() == Freed(old(Value())) && replies == old(replies) && records == 0
    {
      NextKeepsSound(Value(), Request.Free);
      log := if state == Writing then log + [Dropped(currentCommandId)] else log;
      ResetState(false);
    }
  }
}
