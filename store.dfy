/** The server's message store and the commands that use it. The folder
    `board` is a map from board directory names to directories, and each
    directory maps file names to their text. The order in which os.listdir
    returns names is not known, so it comes in as a `Listing` that must
    enumerate the store's keys, each once. */
module Store {
  import opened Wrappers
  import opened Strings
  import opened Messages

  type Dir = map<string, string>
  type Boards = map<string, Dir>

  /** A request dictionary as the client sends it. */
  type Request = map<string, string>

  const MissingPrefix: string := "Missing parameter(s):      "
  const NoSuchBoard: string := "Specified board does not exist"
  const PostedOk: string := "New message posted successfully"
  const InvalidCommand: string := "Invalid command"

  /** The keys new_message needs, in the order it lists them. */
  const PostFields: seq<string> := ["Command", "Board", "Name", "Message"]

  /** What a response carries under "Data". */
  datatype Data = Text(text: string) | BoardList(names: seq<string>) | MessageMap(messages: map<string, string>)

  /** The dictionary {"Command": status, "Data": data} sent back to a client. */
  datatype Response = Response(status: string, data: Data)

  /** A response with the store as the command left it. */
  datatype Reply = Reply(response: Response, boards: Boards)

  /** An os.listdir order for the folder and for each board directory. */
  datatype Listing = Listing(boards: seq<string>, files: map<string, seq<string>>)

  predicate Distinct(s: seq<string>)
  {
    forall i, j :: 0 <= i < j < |s| ==> s[i] != s[j]
  }

  /** s lists the names in keys, each exactly once. */
  predicate Enumerates(s: seq<string>, keys: set<string>)
  {
    Distinct(s) && (forall x :: x in s ==> x in keys) && (forall x :: x in keys ==> x in s)
  }

  predicate Lists(listing: Listing, boards: Boards)
  {
    && Enumerates(listing.boards, boards.Keys)
    && forall b :: b in boards ==> b in listing.files && Enumerates(listing.files[b], boards[b].Keys)
  }

  /** A board as the client names it becomes a directory name with every
      space turned into an underscore; directory names are shown with every
      underscore turned back into a space. */
  function BoardDirName(display: string): string
  {
    Replace(display, ' ', '_')
  }

  function DisplayName(dir: string): string
  {
    Replace(dir, '_', ' ')
  }

  /** `fields` filtered to the keys the request lacks. */
  function Absent(fields: seq<string>, req: Request): (missing: seq<string>)
    ensures forall x :: x in missing <==> x in fields && x !in req
    ensures Distinct(fields) ==> Distinct(missing)
    ensures |missing| <= |fields|
  {
    if fields == [] then []
    else
      var rest := Absent(fields[1..], req);
      assert Distinct(fields) ==> fields[0] !in fields[1..];
      if fields[0] in req then rest else [fields[0]] + rest
  }

  /** The fields of a post that the request lacks, each named once. Python
      takes them out of a set, so their order there is arbitrary; this
      model fixes the order of PostFields. */
  function MissingFields(req: Request): (missing: seq<string>)
    ensures forall x :: x in missing <==> x in PostFields && x !in req
    ensures Distinct(missing)
    ensures missing == [] <==> "Command" in req && "Board" in req && "Name" in req && "Message" in req
  {
    var missing := Absent(PostFields, req);
    assert forall x :: x in PostFields <==> x == "Command" || x == "Board" || x == "Name" || x == "Message";
    assert missing != [] ==> missing[0] in missing;
    missing
  }

  /** `after` is `before` with the one file `f` of board `b` added or
      overwritten with `content`, and nothing else changed. */
  predicate WritesOne(before: Boards, after: Boards, b: string, f: string, content: string)
  {
    && b in before && b in after
    && after.Keys == before.Keys
    && after[b].Keys == before[b].Keys + {f}
    && after[b][f] == content
    && (forall d :: d in before && d != b ==> after[d] == before[d])
    && (forall g :: g in before[b] && g != f ==> after[b][g] == before[b][g])
  }

  /** new_message: with every field present and the board known, the
      message goes into its own file; an error changes nothing. */
  function NewMessage(req: Request, boards: Boards, now: Timestamp): (r: Reply)
    ensures MissingFields(req) != [] ==>
      r == Reply(Response("ERROR", Text(MissingPrefix + Join(MissingFields(req), ", "))), boards)
    ensures MissingFields(req) == [] && BoardDirName(req["Board"]) !in boards ==>
      r == Reply(Response("ERROR", Text(NoSuchBoard)), boards)
    ensures r.response.status == "OK" <==> MissingFields(req) == [] && BoardDirName(req["Board"]) in boards
    ensures r.response.status == "OK" ==>
      r.response.data == Text(PostedOk)
      && WritesOne(boards, r.boards, BoardDirName(req["Board"]), FileName(now, req["Name"]), req["Message"])
  {
    var missing := MissingFields(req);
    if missing == [] then
      var board := BoardDirName(req["Board"]);
      if board in boards then
        var file := FileName(now, req["Name"]);
        Reply(Response("OK", Text(PostedOk)), boards[board := boards[board][file := req["Message"]]])
      else Reply(Response("ERROR", Text(NoSuchBoard)), boards)
    else Reply(Response("ERROR", Text(MissingPrefix + Join(missing, ", "))), boards)
  }

  /** Every name a kept listing holds is a file of the directory listed. */
  lemma KeptInDir(names: seq<string>, dir: Dir)
    requires Enumerates(names, dir.Keys) && Kept(names).Some?
    ensures forall i :: 0 <= i < |Kept(names).value| ==> Kept(names).value[i] in dir
    ensures |Kept(names).value| <= MaxMessages
  {
    KeptAreNewest(names);
  }

  /** load_messages: the error cases of the request, then the newest (at
      most 100) files of the board by date_value, keyed by title. A name
      date_value or the title parse cannot read raises. */
  function LoadMessages(req: Request, boards: Boards, listing: Listing): (r: Outcome<Response>)
    requires Lists(listing, boards)
    ensures "Data" !in req ==> r == Returned(Response("ERROR", Text(MissingPrefix + "Data")))
    ensures "Data" in req && BoardDirName(req["Data"]) !in boards ==> r == Returned(Response("ERROR", Text(NoSuchBoard)))
    ensures r.Raised? ==> "Data" in req && BoardDirName(req["Data"]) in boards
    ensures r.Returned? && r.value.status == "OK" ==>
      "Data" in req && BoardDirName(req["Data"]) in boards
      && r.value.data.MessageMap? && |r.value.data.messages| <= MaxMessages
  {
    if "Data" !in req then Returned(Response("ERROR", Text(MissingPrefix + "Data")))
    else
      var board := BoardDirName(req["Data"]);
      if board !in boards then Returned(Response("ERROR", Text(NoSuchBoard)))
      else
        var total := listing.files[board];
        match Kept(total)
        case None => Raised
        case Some(recent) =>
          KeptInDir(total, boards[board]);
          match Collect(recent, boards[board])
          case None => Raised
          case Some(messages) =>
            CollectComplete(recent, boards[board]);
            Returned(Response("OK", MessageMap(messages)))
  }

  /** The board names GET_BOARDS shows, in listing order. */
  function ListBoards(listing: seq<string>): (names: seq<string>)
    ensures |names| == |listing|
    ensures forall i :: 0 <= i < |listing| ==> names[i] == DisplayName(listing[i])
  {
    seq(|listing|, i requires 0 <= i < |listing| => DisplayName(listing[i]))
  }

  /** check_for_boards, read the way handle_client uses it: true when the
      folder `board` exists and holds at least one board. */
  function CheckForBoards(root: Option<Boards>, listing: seq<string>): (healthy: bool)
    requires root.Some? ==> Enumerates(listing, root.value.Keys)
    ensures healthy <==> root.Some? && root.value != map[]
  {
    if root.Some? then
      assert root.value != map[] <==> |listing| > 0 by {
        if |listing| > 0 {
          assert listing[0] in root.value;
        }
        if root.value != map[] {
          var b :| b in root.value;
          assert b in listing;
        }
      }
      |ListBoards(listing)| > 0
    else false
  }

  /** The command switch of handle_client, once the store is known to be
      healthy. Only POST_MESSAGE changes the store. */
  function Dispatch(req: Request, boards: Boards, listing: Listing, now: Timestamp): (r: Outcome<Reply>)
    requires "Command" in req && Lists(listing, boards)
    ensures req["Command"] !in {"GET_BOARDS", "GET_MESSAGES", "POST_MESSAGE"} ==>
      r == Returned(Reply(Response("ERROR", Text(InvalidCommand)), boards))
    ensures r.Returned? && req["Command"] != "POST_MESSAGE" ==> r.value.boards == boards
    ensures r.Raised? ==> req["Command"] == "GET_MESSAGES"
  {
    var command := req["Command"];
    if command == "GET_BOARDS" then
      Returned(Reply(Response("OK", BoardList(ListBoards(listing.boards))), boards))
    else if command == "GET_MESSAGES" then
      match LoadMessages(req, boards, listing)
      case Raised => Raised
      case Returned(response) => Returned(Reply(response, boards))
    else if command == "POST_MESSAGE" then
      Returned(NewMessage(req, boards, now))
    else
      Returned(Reply(Response("ERROR", Text(InvalidCommand)), boards))
  }

  // ---------------------------------------------------------------------
  // The folder on disk

  /** The folder `board` as the server process sees it; None when it does
      not exist. */
  class BoardStore {
    var root: Option<Boards>

    constructor (root: Option<Boards>)
      ensures this.root == root
    {
      this.root := root;
    }

    /** new_message writing into the folder. It runs only once the health
        check has found the folder. */
    method PostMessage(req: Request, now: Timestamp) returns (response: Response)
      requires root.Some?
      modifies this
      ensures root == Some(NewMessage(req, old(root).value, now).boards)
      ensures response == NewMessage(req, old(root).value, now).response
    {
      var missing := MissingFields(req);
      if missing != [] {
        return Response("ERROR", Text(MissingPrefix + Join(missing, ", ")));
      }
      var board := BoardDirName(req["Board"]);
      if board !in root.value {
        return Response("ERROR", Text(NoSuchBoard));
      }
      var fileName := FileName(now, req["Name"]);
      var dir := root.value[board];
      root := Some(root.value[board := dir[fileName := req["Message"]]]);
      response := Response("OK", Text(PostedOk));
    }

    /** load_messages reading the folder: the files are ranked by
        date_value and the kept ones read one by one into the dictionary. */
    method GetMessages(req: Request, listing: Listing) returns (r: Outcome<Response>)
      requires root.Some? && Lists(listing, root.value)
      ensures r == LoadMessages(req, root.value, listing)
    {
      if "Data" !in req {
        return Returned(Response("ERROR", Text(MissingPrefix + "Data")));
      }
      var board := BoardDirName(req["Data"]);
      if board !in root.value {
        return Returned(Response("ERROR", Text(NoSuchBoard)));
      }
      var dir := root.value[board];
      var total := listing.files[board];
      var kept := Kept(total);
      if kept.None? {
        return Raised;
      }
      KeptInDir(total, dir);
      var messages := ReadMessages(kept.value, dir);
      if messages.None? {
        return Raised;
      }
      return Returned(Response("OK", MessageMap(messages.value)));
    }
  }

  /** The loop of load_messages over the kept files: each file's title
      gets its content, a later file overwriting an earlier one. */
  method ReadMessages(recent: seq<string>, dir: Dir) returns (messages: Option<map<string, string>>)
    requires forall i :: 0 <= i < |recent| ==> recent[i] in dir
    ensures messages == Collect(recent, dir)
  {
    var read: map<string, string> := map[];
    for i := 0 to |recent|
      invariant Collect(recent[..i], dir) == Some(read)
    {
      assert recent[..i + 1][..i] == recent[..i];
      var title := TitleOf(recent[i]);
      if title.None? {
        CollectDefined(recent, dir);
        return None;
      }
      read := read[title.value := dir[recent[i]]];
    }
    assert recent[..|recent|] == recent;
    return Some(read);
  }

  // ---------------------------------------------------------------------
  // Lemmas

  lemma {:induction false} DistinctCard(s: seq<string>)
    requires Distinct(s)
    ensures |set x | x in s| == |s|
  {
    if s != [] {
      var t := s[1..];
      assert Distinct(t);
      DistinctCard(t);
      assert (set x | x in s) == (set x | x in t) + {s[0]};
      assert s[0] !in (set x | x in t);
    }
  }

  /** A listing that enumerates a set is as long as the set is large. */
  lemma EnumeratesCard(s: seq<string>, keys: set<string>)
    requires Enumerates(s, keys)
    ensures |s| == |keys|
  {
    DistinctCard(s);
    assert (set x | x in s) == keys;
  }

  /** A display name without underscores survives the trip to a directory
      name and back, and so does a directory name without spaces. */
  lemma BoardNameRoundTrip(display: string, dir: string)
    ensures '_' !in display ==> DisplayName(BoardDirName(display)) == display
    ensures ' ' !in dir ==> BoardDirName(DisplayName(dir)) == dir
  {
    if '_' !in display {
      ReplaceBack(display, ' ', '_');
    }
    if ' ' !in dir {
      ReplaceBack(dir, '_', ' ');
    }
  }

  /** GET_BOARDS on a healthy store answers OK with one display name per
      board directory, and only those. */
  lemma GetBoardsNames(req: Request, boards: Boards, listing: Listing, now: Timestamp)
    requires "Command" in req && req["Command"] == "GET_BOARDS" && Lists(listing, boards)
    ensures Dispatch(req, boards, listing, now).Returned?
    ensures var reply := Dispatch(req, boards, listing, now).value;
      && reply.boards == boards
      && reply.response.status == "OK"
      && reply.response.data.BoardList?
      && |reply.response.data.names| == |boards|
      && forall n :: n in reply.response.data.names <==> exists d :: d in boards && DisplayName(d) == n
  {
    var names := ListBoards(listing.boards);
    EnumeratesCard(listing.boards, boards.Keys);
    forall n ensures n in names <==> exists d :: d in boards && DisplayName(d) == n {
      if n in names {
        var i :| 0 <= i < |names| && names[i] == n;
        assert listing.boards[i] in boards;
      }
      if exists d :: d in boards && DisplayName(d) == n {
        var d :| d in boards && DisplayName(d) == n;
        var i :| 0 <= i < |listing.boards| && listing.boards[i] == d;
        assert names[i] == n;
      }
    }
  }

  /** A successful load shows only the newest files of the board: as many
      as there are, up to 100, and no file left out has a larger date value
      than one kept. */
  lemma {:induction false} LoadKeepsNewest(req: Request, boards: Boards, listing: Listing)
    requires Lists(listing, boards)
    requires LoadMessages(req, boards, listing).Returned?
    requires LoadMessages(req, boards, listing).value.status == "OK"
    ensures "Data" in req && BoardDirName(req["Data"]) in boards
    ensures var dir := boards[BoardDirName(req["Data"])];
      var total := listing.files[BoardDirName(req["Data"])];
      && Kept(total).Some?
      && |Kept(total).value| == Min(MaxMessages, |dir|)
      && (forall f :: f in Kept(total).value ==> f in dir)
      && (forall g :: g in dir ==> DateValue(g).Some?)
      && (forall f, g :: f in Kept(total).value && g in dir && g !in Kept(total).value ==>
            DateValue(f).value >= DateValue(g).value)
  {
    LoadIsCollect(req, boards, listing);
    var board := BoardDirName(req["Data"]);
    KeptNewestOfDir(listing.files[board], boards[board]);
  }

  /** KeptAreNewest restated over the directory a listing enumerates. */
  lemma {:induction false} KeptNewestOfDir(total: seq<string>, dir: Dir)
    requires Enumerates(total, dir.Keys) && Kept(total).Some?
    ensures |Kept(total).value| == Min(MaxMessages, |dir|)
    ensures forall f :: f in Kept(total).value ==> f in dir
    ensures forall g :: g in dir ==> DateValue(g).Some?
    ensures forall f, g :: f in Kept(total).value && g in dir && g !in Kept(total).value ==>
      DateValue(f).value >= DateValue(g).value
  {
    KeptAreNewest(total);
    EnumeratesCard(total, dir.Keys);
    forall g | g in dir ensures DateValue(g).Some? {
      var i :| 0 <= i < |total| && total[i] == g;
    }
  }

  /** A successful load's dictionary is the one built from the kept files. */
  lemma LoadIsCollect(req: Request, boards: Boards, listing: Listing)
    requires Lists(listing, boards)
    requires LoadMessages(req, boards, listing).Returned?
    requires LoadMessages(req, boards, listing).value.status == "OK"
    ensures "Data" in req && BoardDirName(req["Data"]) in boards
    ensures var dir := boards[BoardDirName(req["Data"])];
      var total := listing.files[BoardDirName(req["Data"])];
      && Kept(total).Some?
      && (forall i :: 0 <= i < |Kept(total).value| ==> Kept(total).value[i] in dir)
      && Collect(Kept(total).value, dir) == Some(LoadMessages(req, boards, listing).value.data.messages)
  {
    var board := BoardDirName(req["Data"]);
    KeptInDir(listing.files[board], boards[board]);
  }

  /** A successful load shows, under each title, the content of a kept file
      with that title, and shows the title of every kept file. */
  lemma {:induction false} LoadShowsKept(req: Request, boards: Boards, listing: Listing)
    requires Lists(listing, boards)
    requires LoadMessages(req, boards, listing).Returned?
    requires LoadMessages(req, boards, listing).value.status == "OK"
    ensures "Data" in req && BoardDirName(req["Data"]) in boards
    ensures var dir := boards[BoardDirName(req["Data"])];
      var total := listing.files[BoardDirName(req["Data"])];
      var m := LoadMessages(req, boards, listing).value.data.messages;
      && Kept(total).Some?
      && (forall t :: t in m ==> exists f :: f in Kept(total).value && f in dir && TitleOf(f) == Some(t) && m[t] == dir[f])
      && (forall f :: f in Kept(total).value ==> TitleOf(f).Some? && TitleOf(f).value in m)
  {
    LoadIsCollect(req, boards, listing);
    var board := BoardDirName(req["Data"]);
    CollectShows(Kept(listing.files[board]).value, boards[board]);
  }

  /** A file is among the kept ones when the board has no more than 100
      files, or when every other file is older. */
  lemma {:induction false} FileKept(total: seq<string>, dir: Dir, f: string)
    requires Enumerates(total, dir.Keys) && Kept(total).Some? && f in dir
    requires forall g :: g in dir ==> DateValue(g).Some?
    requires |dir| <= MaxMessages || forall g :: g in dir && g != f ==> DateValue(g).value < DateValue(f).value
    ensures f in Kept(total).value
  {
    var kept := Kept(total).value;
    if |dir| <= MaxMessages {
      KeptAreNewest(total);
      EnumeratesCard(total, dir.Keys);
      assert f in total;
    } else {
      KeptNewestOfDir(total, dir);
      assert |kept| == MaxMessages;
      var top := kept[0];
      assert top in kept && top in dir;
      assert top == f || f in kept;
    }
  }

  /** A file whose title no other file of the board shares is shown under
      that title with its content, as long as the board holds at most 100
      files or the file is newer than every other. */
  lemma {:induction false} LoadShowsUniqueTitle(req: Request, boards: Boards, listing: Listing, f: string)
    requires Lists(listing, boards)
    requires "Data" in req && BoardDirName(req["Data"]) in boards
    requires forall g :: g in boards[BoardDirName(req["Data"])] ==> DateValue(g).Some? && TitleOf(g).Some?
    requires f in boards[BoardDirName(req["Data"])]
    requires || |boards[BoardDirName(req["Data"])]| <= MaxMessages
             || forall g :: g in boards[BoardDirName(req["Data"])] && g != f ==> DateValue(g).value < DateValue(f).value
    requires forall g :: g in boards[BoardDirName(req["Data"])] && TitleOf(g) == TitleOf(f) ==> g == f
    ensures var r := LoadMessages(req, boards, listing);
      && r.Returned? && r.value.status == "OK" && r.value.data.MessageMap?
      && TitleOf(f).Some? && TitleOf(f).value in r.value.data.messages
      && r.value.data.messages[TitleOf(f).value] == boards[BoardDirName(req["Data"])][f]
  {
    var dir := boards[BoardDirName(req["Data"])];
    var total := listing.files[BoardDirName(req["Data"])];
    assert forall i :: 0 <= i < |total| ==> DateValue(total[i]).Some? by {
      forall i | 0 <= i < |total| ensures DateValue(total[i]).Some? {
        assert total[i] in dir;
      }
    }
    assert Kept(total).Some?;
    KeptInDir(total, dir);
    FileKept(total, dir, f);
    var recent := Kept(total).value;
    var k :| 0 <= k < |recent| && recent[k] == f;
    CollectDefined(recent, dir);
    assert Collect(recent, dir).Some? by {
      forall i | 0 <= i < |recent| ensures TitleOf(recent[i]).Some? {
        assert recent[i] in dir;
      }
    }
    forall i | 0 <= i < |recent| && TitleOf(recent[i]) == TitleOf(recent[k]) ensures recent[i] == recent[k] {
      assert recent[i] in dir;
    }
    CollectUnique(recent, dir, k);
  }

  /** Every file of the directory has a readable date value and title. */
  predicate WellNamed(dir: Dir)
  {
    forall f :: f in dir ==> DateValue(f).Some? && TitleOf(f).Some?
  }

  /** No file of the directory shows the given title. */
  predicate TitleFree(dir: Dir, title: string)
  {
    forall f :: f in dir ==> TitleOf(f) != Some(title)
  }

  /** A message posted under a title without '-', '.' or '_' is read back by
      GET_MESSAGES under the same title with its content, whatever order the
      directory listing comes in, as long as the board's other files are well
      named, none has the same title, and either the board holds fewer than
      100 files before the post or every one of them is older than it. */
  lemma {:induction false} PostThenLoad(board: string, title: string, content: string,
                                         boards: Boards, now: Timestamp, listing: Listing)
    requires ValidTimestamp(now)
    requires BoardDirName(board) in boards
    requires '-' !in title && '.' !in title && '_' !in title
    requires WellNamed(boards[BoardDirName(board)])
    requires TitleFree(boards[BoardDirName(board)], title)
    requires Lists(listing, boards)
    requires || |boards[BoardDirName(board)]| < MaxMessages
             || forall g :: g in boards[BoardDirName(board)] ==> DateValue(g).value < SortKey(now)
    ensures var dir := BoardDirName(board);
      var post := map["Command" := "POST_MESSAGE", "Board" := board, "Name" := title, "Message" := content];
      NewMessage(post, boards, now) == Reply(Response("OK", Text(PostedOk)), boards[dir := boards[dir][FileName(now, title) := content]])
    ensures var dir := BoardDirName(board);
      var file := FileName(now, title);
      var after := boards[dir := boards[dir][file := content]];
      Lists(Listing(listing.boards, listing.files[dir := listing.files[dir] + [file]]), after)
    ensures var dir := BoardDirName(board);
      var after := boards[dir := boards[dir][FileName(now, title) := content]];
      forall relisted :: Lists(relisted, after) ==>
        var r := LoadMessages(map["Command" := "GET_MESSAGES", "Data" := board], after, relisted);
        && r.Returned? && r.value.status == "OK" && r.value.data.MessageMap?
        && title in r.value.data.messages
        && r.value.data.messages[title] == content
  {
    var dir := BoardDirName(board);
    var file := FileName(now, title);
    var post := map["Command" := "POST_MESSAGE", "Board" := board, "Name" := title, "Message" := content];
    assert MissingFields(post) == [];
    var after := boards[dir := boards[dir][file := content]];
    DateValueOfFileName(now, title);
    TitleOfFileName(now, title);
    PostedDir(boards[dir], file, title, content, SortKey(now));
    ListsAfterWrite(listing, boards, dir, file, content);
    var get := map["Command" := "GET_MESSAGES", "Data" := board];
    assert "Data" in get && BoardDirName(get["Data"]) == dir;
    assert after[dir] == boards[dir][file := content];
    forall relisted | Lists(relisted, after)
      ensures var r := LoadMessages(get, after, relisted);
        && r.Returned? && r.value.status == "OK" && r.value.data.MessageMap?
        && title in r.value.data.messages
        && r.value.data.messages[title] == content
    {
      LoadShowsUniqueTitle(get, after, relisted, file);
    }
  }

  /** The board directory after the write: still well named, the new file
      the only one with its title, and either within the 100 kept or newer
      than every other file. */
  lemma {:induction false} PostedDir(dir: Dir, file: string, title: string, content: string, key: nat)
    requires WellNamed(dir) && TitleFree(dir, title)
    requires DateValue(file) == Some(key) && TitleOf(file) == Some(title)
    requires |dir| < MaxMessages || forall g :: g in dir ==> DateValue(g).value < key
    ensures file !in dir
    ensures forall g :: g in dir[file := content] ==> DateValue(g).Some? && TitleOf(g).Some?
    ensures forall g :: g in dir[file := content] && TitleOf(g) == TitleOf(file) ==> g == file
    ensures || |dir[file := content]| <= MaxMessages
            || forall g :: g in dir[file := content] && g != file ==> DateValue(g).value < DateValue(file).value
  {
    var after := dir[file := content];
    assert forall g :: g in after ==> g == file || g in dir;
    if |dir| < MaxMessages {
      AddOneCard(dir, file, content);
    }
  }

  lemma AddOneCard(dir: Dir, file: string, content: string)
    ensures |dir[file := content]| <= |dir| + 1
  {
    assert dir[file := content].Keys == dir.Keys + {file};
    assert |dir[file := content].Keys| <= |dir.Keys| + |{file}|;
  }

  /** Writing a new file into a board directory adds one entry to its
      listing; every other listing stays as it was. */
  lemma {:induction false} ListsAfterWrite(listing: Listing, boards: Boards, dir: string, file: string, content: string)
    requires Lists(listing, boards) && dir in boards && file !in boards[dir]
    ensures Lists(Listing(listing.boards, listing.files[dir := listing.files[dir] + [file]]),
                  boards[dir := boards[dir][file := content]])
  {
    var after := boards[dir := boards[dir][file := content]];
    var total := listing.files[dir] + [file];
    assert after.Keys == boards.Keys;
    assert Enumerates(total, after[dir].Keys) by {
      assert forall x :: x in total ==> x in listing.files[dir] || x == file;
      forall i, j | 0 <= i < j < |total| ensures total[i] != total[j] {
        if j == |total| - 1 {
          assert total[i] in listing.files[dir];
        }
      }
    }
  }

  /** Posting to a board that is still empty writes exactly one file. */
  lemma PostToEmptyBoard(now: Timestamp, board: string, title: string, content: string)
    ensures NewMessage(map["Command" := "POST_MESSAGE", "Board" := board, "Name" := title, "Message" := content],
                       map[BoardDirName(board) := map[]], now)
      == Reply(Response("OK", Text(PostedOk)), map[BoardDirName(board) := map[FileName(now, title) := content]])
  {
    var post := map["Command" := "POST_MESSAGE", "Board" := board, "Name" := title, "Message" := content];
    assert MissingFields(post) == [];
  }

  /** A board holding one message, under a title without '-', '.' or '_',
      loads as exactly that title mapped to that content. */
  lemma {:induction false} LoadSingleMessage(now: Timestamp, board: string, title: string, content: string)
    requires ValidTimestamp(now)
    requires '-' !in title && '.' !in title && '_' !in title
    ensures var dir := BoardDirName(board);
      var after := map[dir := map[FileName(now, title) := content]];
      var listing := Listing([dir], map[dir := [FileName(now, title)]]);
      && Lists(listing, after)
      && LoadMessages(map["Command" := "GET_MESSAGES", "Data" := board], after, listing)
         == Returned(Response("OK", MessageMap(map[title := content])))
  {
    var dir := BoardDirName(board);
    var file := FileName(now, title);
    var after := map[dir := map[file := content]];
    var listing := Listing([dir], map[dir := [file]]);
    var get := map["Command" := "GET_MESSAGES", "Data" := board];
    assert Lists(listing, after);
    DateValueOfFileName(now, title);
    TitleOfFileName(now, title);
    KeptOne(file);
    CollectOne(file, after[dir]);
  }
}
