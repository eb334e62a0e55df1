/** The client's side of the protocol: framing a request, reading the
    reply, checking the server's board list, and choosing a board by
    number. Keyboard input is a sequence of typed lines; the reply is a
    sequence of recv events. */
module BulletinClient {
  import opened Wrappers
  import opened Strings
  import opened Framing
  import opened Messages
  import opened Store

  /** listen: receive until the declared frame is complete. A closed
      connection and a receive timeout both end the program. */
  method Listen(events: seq<Event>) returns (r: Decoded)
    ensures r == Reassemble([], None, events)
  {
    var msg: seq<byte> := [];
    var first := true;
    var size: Option<int> := None;
    var i := 0;
    while true
      invariant 0 <= i <= |events|
      invariant first <==> size.None?
      invariant first ==> msg == []
      invariant Reassemble([], None, events) == Reassemble(msg, size, events[i..])
      decreases |events| - i
    {
      if i == |events| {
        return Starved;
      }
      var event := events[i];
      assert events[i..][0] == event;
      assert events[i..][1..] == events[i + 1..];
      i := i + 1;
      if event.Timeout? {
        return TimedOut;
      }
      var data := event.bytes;
      if data == [] {
        return Disconnected;
      } else if first {
        var declared := ParseHeader(data);
        if declared.None? {
          return BadHeader;
        }
        first, size := false, declared;
      }
      msg := msg + data;
      if |msg| - HeaderSize == size.value {
        return Payload(Body(msg));
      }
    }
  }

  /** serialise_and_send: the pickled request goes out behind the same
      10-byte header the server writes, then the reply is read. */
  method SerialiseAndSend(pickled: seq<byte>, reply: seq<Event>) returns (frame: seq<byte>, response: Decoded)
    ensures frame == Encode(pickled)
    ensures |pickled| < MaxPayload ==>
      |frame| == HeaderSize + |pickled| && frame[HeaderSize..] == pickled
      && ParseHeader(frame) == Some(|pickled|)
    ensures |pickled| < MaxPayload ==> Reassemble([], None, [Data(frame)]) == Payload(pickled)
    ensures response == Reassemble([], None, reply)
  {
    frame := Encode(pickled);
    if |pickled| < MaxPayload {
      FrameLayout(pickled);
      SingleChunk(pickled);
    }
    response := Listen(reply);
  }

  /** What view_boards leaves the client with: the board list, or an exit
      with status 1 after printing the server's error. */
  datatype BoardsView = Boards(names: seq<string>) | Exit(code: int, notice: string)

  function ViewBoards(response: Response): (v: BoardsView)
    ensures response.status == "OK" && response.data.BoardList? ==> v == Boards(response.data.names)
    ensures response.status != "OK" ==> v.Exit? && v.code == 1
    ensures response.status != "OK" && response.data.Text? ==>
      v.notice == "ERROR:       " + response.data.text + "\n"
  {
    if response.status == "OK" then
      match response.data
      case BoardList(names) => Boards(names)
      case _ => Exit(1, "")
    else
      match response.data
      case Text(text) => Exit(1, "ERROR:       " + text + "\n")
      case _ => Exit(1, "")
  }

  /** The check main and send_message make on a typed board number: all
      digits, and between 1 and the number of boards. The result is the
      index into the board list. */
  function BoardChoice(typed: string, count: nat): (index: Option<nat>)
    ensures index.Some? <==> |typed| > 0 && AllDigits(typed) && 1 <= DigitsValue(typed) <= count
    ensures index.Some? ==> index.value < count && index.value == DigitsValue(typed) - 1
  {
    if |typed| > 0 && AllDigits(typed) && 1 <= DigitsValue(typed) <= count then
      Some(DigitsValue(typed) - 1)
    else None
  }

  /** What main does with one menu line. */
  datatype Action = ViewBoard(index: nat) | BadBoardNumber | Post | Quit | BadCommand

  function MenuAction(typed: string, count: nat): (a: Action)
    ensures a.ViewBoard? <==> BoardChoice(typed, count).Some?
    ensures a.ViewBoard? ==> a.index == BoardChoice(typed, count).value && a.index < count
    ensures a.BadBoardNumber? <==> |typed| > 0 && AllDigits(typed) && BoardChoice(typed, count).None?
    ensures a.Post? <==> typed == "POST"
    ensures a.Quit? <==> typed == "QUIT"
  {
    if |typed| > 0 && AllDigits(typed) then
      match BoardChoice(typed, count)
      case Some(index) => ViewBoard(index)
      case None => BadBoardNumber
    else if typed == "POST" then Post
    else if typed == "QUIT" then Quit
    else BadCommand
  }

  /** The position of the first typed line that names a board, or the
      number of lines when none does. */
  function FirstValid(typed: seq<string>, count: nat): (k: nat)
    ensures k <= |typed|
    ensures forall j :: 0 <= j < k ==> BoardChoice(typed[j], count).None?
    ensures k < |typed| ==> BoardChoice(typed[k], count).Some?
  {
    if typed == [] then 0
    else if BoardChoice(typed[0], count).Some? then 0
    else 1 + FirstValid(typed[1..], count)
  }

  /** The request send_message builds. */
  function PostRequest(board: string, title: string, message: string): Request
  {
    map["Command" := "POST_MESSAGE", "Board" := board, "Name" := title, "Message" := message]
  }

  /** send_message up to the request it sends: ask for a board number
      until one is valid, then for a title and the message. None when the
      typed lines run out first. */
  method SendMessage(typed: seq<string>, boards: seq<string>) returns (request: Option<Request>)
    ensures var k := FirstValid(typed, |boards|);
      && (request.Some? <==> k + 2 < |typed|)
      && (request.Some? ==>
            request.value == PostRequest(boards[BoardChoice(typed[k], |boards|).value], typed[k + 1], typed[k + 2]))
  {
    var invalid := true;
    var i := 0;
    var choice: nat := 0;
    while invalid
      invariant 0 <= i <= |typed|
      invariant forall j :: 0 <= j < i - (if invalid then 0 else 1) ==> BoardChoice(typed[j], |boards|).None?
      invariant !invalid ==> 0 < i && BoardChoice(typed[i - 1], |boards|) == Some(choice)
      decreases |typed| - i, invalid
    {
      if i == |typed| {
        return None;
      }
      var line := typed[i];
      i := i + 1;
      var picked := BoardChoice(line, |boards|);
      if picked.Some? {
        invalid := false;
        choice := picked.value;
      }
    }
    if i + 1 >= |typed| {
      return None;
    }
    var title := typed[i];
    var message := typed[i + 1];
    request := Some(PostRequest(boards[choice], title, message));
  }

  // ---------------------------------------------------------------------
  // Lemmas

  /** Typing the number the client printed beside a board, str(i+1),
      selects that board. */
  lemma PrintedNumberSelects(i: nat, count: nat)
    requires i < count
    ensures BoardChoice(Decimal(i + 1), count) == Some(i)
  {
    DecimalValue(i + 1);
  }

  /** The list the client keeps after asking for the boards is the server's
      list of display names, one per board directory. */
  lemma ClientSeesBoards(req: Request, boards: Boards, listing: Listing, now: Timestamp)
    requires "Command" in req && req["Command"] == "GET_BOARDS" && Lists(listing, boards)
    ensures Dispatch(req, boards, listing, now).Returned?
    ensures ViewBoards(Dispatch(req, boards, listing, now).value.response) == Boards(ListBoards(listing.boards))
  {
  }

  /** A request the client frames, cut anywhere after the header, is read
      by the server's get_data as exactly the pickled bytes. */
  lemma ClientToServer(pickled: seq<byte>, chunks: seq<seq<byte>>)
    requires |pickled| < MaxPayload
    requires NoEmptyChunk(chunks) && Flatten(chunks) == Encode(pickled)
    requires chunks != [] && |chunks[0]| >= HeaderSize
    ensures Reassemble([], None, DataEvents(chunks)) == Payload(pickled)
  {
    ReassembleFrame(pickled, chunks, []);
    assert DataEvents(chunks) + [] == DataEvents(chunks);
  }
}
