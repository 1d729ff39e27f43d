/** The messages that answer a read or a list command, as functions of the content. */
module RpcReplies {
  import opened RpcFraming
  import opened Pages
  import opened RpcStorage

  const MAX_DATA_SIZE: Capacity := 512
  const LIST_SIZE: Capacity := 8

  /** One message a page, all but the last announcing another. */
  function Messages(id: nat, contents: seq<Content>): (replies: seq<Reply>)
    ensures |replies| == |contents|
  {
    seq(|contents|, i requires 0 <= i < |contents| => Reply(id, Ok, i + 1 < |contents|, contents[i]))
  }

  function DataPages(pages: seq<Bytes>): (contents: seq<Content>)
    ensures |contents| == |pages|
  {
    seq(|pages|, i requires 0 <= i < |pages| => Data(pages[i]))
  }

  function ListPages(pages: seq<seq<Entry>>): (contents: seq<Content>)
    ensures |contents| == |pages|
  {
    seq(|pages|, i requires 0 <= i < |pages| => Listing(pages[i]))
  }

  /** Read number `good` (from 0) falls short, if the file has that many pages; reading nothing cannot. */
  predicate FallsShort(content: Bytes, good: nat) {
    content != [] && good < |Paged(content, MAX_DATA_SIZE)|
  }

  function Failed(id: nat, error: nat): Reply {
    Reply(id, FileStatus(error), false, Empty)
  }

  function ReadReplies(id: nat, content: Bytes, good: nat, error: nat): seq<Reply> {
    var all := Messages(id, DataPages(Paged(content, MAX_DATA_SIZE)));
    if FallsShort(content, good) then all[..good] + [Failed(id, error)] else all
  }

  function ListReplies(id: nat, entries: seq<Entry>): seq<Reply> {
    Messages(id, ListPages(Paged(entries, LIST_SIZE)))
  }

  /** "/" is answered from a fixed list. */
  function RootListing(id: nat): Reply {
    Reply(id, Ok, false, Listing(["any", "int", "ext"]))
  }

  function ListAnswers(id: nat, path: Path, opens: bool, entries: seq<Entry>, error: nat): seq<Reply> {
    if path == "/" then [RootListing(id)]
    else if opens then ListReplies(id, entries)
    else [Failed(id, error)]
  }

  // ----- what the client makes of them -----

  /** The data of a sequence of replies, concatenated. */
  function Payload(replies: seq<Reply>): Bytes {
    if replies == [] then [] else
      (if replies[0].content.Data? then replies[0].content.bytes else []) + Payload(replies[1..])
  }

  function Entries(replies: seq<Reply>): seq<Entry> {
    if replies == [] then [] else
      (if replies[0].content.Listing? then replies[0].content.entries else []) + Entries(replies[1..])
  }

  /** The client stops listening at the right message: exactly the last says there is no next. */
  predicate EndsWithLast(id: nat, replies: seq<Reply>) {
    && replies != []
    && forall i :: 0 <= i < |replies| ==> replies[i].id == id && replies[i].hasNext == (i < |replies| - 1)
  }

  lemma {:induction false} PayloadIsJoined(id: nat, pages: seq<Bytes>)
    ensures Payload(Messages(id, DataPages(pages))) == Joined(pages)
  {
    if pages != [] {
      assert DataPages(pages)[1..] == DataPages(pages[1..]);
      assert Messages(id, DataPages(pages))[1..] == Messages(id, DataPages(pages[1..]));
      PayloadIsJoined(id, pages[1..]);
    }
  }

  lemma {:induction false} EntriesAreJoined(id: nat, pages: seq<seq<Entry>>)
    ensures Entries(Messages(id, ListPages(pages))) == Joined(pages)
  {
    if pages != [] {
      assert ListPages(pages)[1..] == ListPages(pages[1..]);
      assert Messages(id, ListPages(pages))[1..] == Messages(id, ListPages(pages[1..]));
      EntriesAreJoined(id, pages[1..]);
    }
  }

  /** The first pages of a longer content carry its beginning. */
  lemma {:induction false} FirstPages(id: nat, content: Bytes, good: nat)
    requires good < |Paged(content, MAX_DATA_SIZE)|
    ensures good * MAX_DATA_SIZE <= |content|
    ensures Payload(Messages(id, DataPages(Paged(content, MAX_DATA_SIZE)))[..good]) == content[..good * MAX_DATA_SIZE]
  {
    var all := Messages(id, DataPages(Paged(content, MAX_DATA_SIZE)));
    if good > 0 {
      var rest := content[MAX_DATA_SIZE..];
      FirstPages(id, rest, good - 1);
      assert all[1..] == Messages(id, DataPages(Paged(rest, MAX_DATA_SIZE)));
      assert all[..good][1..] == all[1..][..good - 1];
      assert content[..good * MAX_DATA_SIZE] == content[..MAX_DATA_SIZE] + rest[..(good - 1) * MAX_DATA_SIZE];
    }
  }

  /**
   A read whose every block arrives: the pages carry the file in order, none
   over 512 bytes, max(1, ceil(n / 512)) of them, the last one marked.
   */
  lemma {:induction false} FullReadIsComplete(id: nat, content: Bytes, good: nat, error: nat)
    requires !FallsShort(content, good)
    ensures var replies := ReadReplies(id, content, good, error);
            && EndsWithLast(id, replies) && Payload(replies) == content
            && (forall r | r in replies :: r.status == Ok && r.content.Data? && |r.content.bytes| <= 512)
            && (|replies| - 1) * 512 <= |content| <= |replies| * 512
            && (content != [] ==> (|replies| - 1) * 512 < |content|) && (content == [] ==> |replies| == 1)
  {
    var pages := Paged(content, MAX_DATA_SIZE);
    PagesAreFull(content, MAX_DATA_SIZE);
    PageCount(content, MAX_DATA_SIZE);
    PagesJoin(content, MAX_DATA_SIZE);
    PayloadIsJoined(id, pages);
  }

  /**
   A read cut short: full pages carrying the beginning of the file, each
   announcing another, then one message without content and without a next.  It
   is a failure exactly when the file reports an error: with code 0 it says OK.
   */
  lemma {:induction false} ShortReadEndsEmpty(id: nat, content: Bytes, good: nat, error: nat)
    requires FallsShort(content, good)
    ensures var replies := ReadReplies(id, content, good, error);
            && EndsWithLast(id, replies) && |replies| == good + 1
            && replies[good].content == Empty && (replies[good].status.Failure? <==> error != 0)
            && (replies[good].status.Failure? ==> replies[good].status.code == error)
            && (forall i :: 0 <= i < good ==> replies[i].content.Data? && |replies[i].content.bytes| == 512)
            && good * 512 <= |content| && Payload(replies[..good]) == content[..good * 512]
  {
    PagesAreFull(content, MAX_DATA_SIZE);
    FirstPages(id, content, good);
    var all := Messages(id, DataPages(Paged(content, MAX_DATA_SIZE)));
    assert ReadReplies(id, content, good, error)[..good] == all[..good];
  }

  /** A short read with no file error: the client is told that the file is complete and empty. */
  lemma {:induction false} ShortReadAnsweredOk(id: nat)
    ensures ReadReplies(id, [7], 0, 0) == [Reply(id, Ok, false, Empty)]
  {
    assert Paged([7], MAX_DATA_SIZE) == [[7]];
    var all := Messages(id, DataPages([[7]]));
    assert all[..0] == [];
  }

  /** A listing: all entries in order, every message but the last full, the last one marked. */
  lemma {:induction false} ListingIsComplete(id: nat, entries: seq<Entry>)
    ensures var replies := ListReplies(id, entries);
            && EndsWithLast(id, replies) && Entries(replies) == entries
            && (forall i :: 0 <= i < |replies| ==> replies[i].status == Ok && replies[i].content.Listing?)
            && (forall i :: 0 <= i < |replies| - 1 ==> |replies[i].content.entries| == 8)
            && |replies[|replies| - 1].content.entries| <= 8
            && (|replies| - 1) * 8 <= |entries| <= |replies| * 8
  {
    PagesAreFull(entries, LIST_SIZE);
    PageCount(entries, LIST_SIZE);
    PagesJoin(entries, LIST_SIZE);
    EntriesAreJoined(id, Paged(entries, LIST_SIZE));
  }

  /** A list command: the root from a fixed list, a directory that opens as its listing, else one error and no content. */
  lemma {:induction false} ListIsAnswered(id: nat, path: Path, opens: bool, entries: seq<Entry>, error: nat)
    ensures var replies := ListAnswers(id, path, opens, entries, error);
            && EndsWithLast(id, replies)
            && (path == "/" ==> Entries(replies) == ["any", "int", "ext"])
            && (path == "/" || opens ==> forall r | r in replies :: r.status == Ok && r.content.Listing?)
            && (path != "/" && opens ==> Entries(replies) == entries)
            && (path != "/" && !opens ==>
                  |replies| == 1 && replies[0].content == Empty
                  && replies[0].status == if error == 0 then Ok else Failure(error))
  {
    ListingIsComplete(id, entries);
    if path == "/" {
      assert Entries([RootListing(id)]) == RootListing(id).content.entries + Entries([RootListing(id)][1..]);
    }
  }

  // ----- the directory loop -----

  /** `out` is the first `sent` messages of the listing, and `rest` the entries still to go. */
  predicate Listed(out: seq<Reply>, id: nat, entries: seq<Entry>, sent: nat, rest: seq<Entry>) {
    var pages := Paged(entries, LIST_SIZE);
    sent < |pages| && out == ListReplies(id, entries)[..sent] && pages[sent..] == Paged(rest, LIST_SIZE)
  }

  lemma {:induction false} ListedStart(id: nat, entries: seq<Entry>)
    ensures Listed([], id, entries, 0, entries)
  {
    var pages := Paged(entries, LIST_SIZE);
    assert pages[0..] == pages;
  }

  lemma {:induction false} ListMessage(id: nat, entries: seq<Entry>, k: nat)
    requires k < |Paged(entries, LIST_SIZE)|
    ensures var pages := Paged(entries, LIST_SIZE);
            ListReplies(id, entries)[..k + 1]
            == ListReplies(id, entries)[..k] + [Reply(id, Ok, k + 1 < |pages|, Listing(pages[k]))]
  {
    var all := ListReplies(id, entries);
    assert all[..k + 1] == all[..k] + [all[k]];
  }

  /** A full page goes out when there is more to come. */
  lemma {:induction false} ListedFlush(out: seq<Reply>, id: nat, entries: seq<Entry>, sent: nat, page: seq<Entry>,
                                       rest: seq<Entry>)
    requires Listed(out, id, entries, sent, page + rest) && |page| == LIST_SIZE && rest != []
    ensures Listed(out + [Reply(id, Ok, true, Listing(page))], id, entries, sent + 1, rest)
  {
    var pages := Paged(entries, LIST_SIZE);
    PagedFront(page, rest, LIST_SIZE);
    assert pages[sent] == pages[sent..][0] == page;
    assert pages[sent + 1..] == pages[sent..][1..] == Paged(rest, LIST_SIZE);
    ListMessage(id, entries, sent);
  }

  lemma {:induction false} ListedEnd(out: seq<Reply>, id: nat, entries: seq<Entry>, sent: nat, page: seq<Entry>)
    requires Listed(out, id, entries, sent, page) && |page| <= LIST_SIZE
    ensures out + [Reply(id, Ok, false, Listing(page))] == ListReplies(id, entries)
  {
    var pages := Paged(entries, LIST_SIZE);
    assert pages[sent..] == [page];
    assert |pages| == sent + 1 && pages[sent] == pages[sent..][0] == page;
    ListMessage(id, entries, sent);
    var all := ListReplies(id, entries);
    assert all[..sent + 1] == all;
  }

  /** One entry moves from the directory to the page. */
  lemma {:induction false} EntryMoves(list: seq<Entry>, entries: seq<Entry>, next: nat)
    requires next < |entries|
    ensures list + entries[next..] == list + [entries[next]] + entries[next + 1..]
  {
  }

  lemma {:induction false} Appends(before: seq<Reply>, out: seq<Reply>, last: Reply)
    ensures before + out + [last] == before + (out + [last])
  {
  }

  // ----- the block loop -----

  /** `out` is the first `sent` messages of the read, and `left` the content still to go. */
  predicate Paging(out: seq<Reply>, id: nat, content: Bytes, sent: nat, left: Bytes) {
    var pages := Paged(content, MAX_DATA_SIZE);
    && sent < |pages| && pages[sent..] == Paged(left, MAX_DATA_SIZE)
    && out == Messages(id, DataPages(pages))[..sent]
    && (left == [] ==> content == [])
  }

  lemma {:induction false} PagingStart(id: nat, content: Bytes)
    ensures Paging([], id, content, 0, content)
  {
    var pages := Paged(content, MAX_DATA_SIZE);
    assert pages[0..] == pages;
  }

  /** The next block goes out; it is the last exactly when nothing is left after it. */
  lemma {:induction false} PagingNext(out: seq<Reply>, id: nat, content: Bytes, sent: nat, left: Bytes, size: nat)
    requires Paging(out, id, content, sent, left)
    requires size == if |left| <= MAX_DATA_SIZE then |left| else MAX_DATA_SIZE
    ensures var more := out + [Reply(id, Ok, left[size..] != [], Data(left[..size]))];
            && (left[size..] != [] ==> Paging(more, id, content, sent + 1, left[size..]))
            && (left[size..] == [] ==>
                  more == Messages(id, DataPages(Paged(content, MAX_DATA_SIZE))) && |Paged(content, MAX_DATA_SIZE)| == sent + 1)
  {
    var pages := Paged(content, MAX_DATA_SIZE);
    var all := Messages(id, DataPages(pages));
    assert pages[sent] == pages[sent..][0] == left[..size];
    assert pages[sent + 1..] == pages[sent..][1..];
    assert all[..sent + 1] == all[..sent] + [all[sent]];
    assert |pages| == sent + 1 ==> all[..sent + 1] == all;
  }
}
