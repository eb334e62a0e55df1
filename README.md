# Bulletin board: a verified model

This project models a small bulletin-board system written in Python: a
server (`server.py`) that stores messages in a `board` folder, one
sub-folder per board, and a client (`client.py`) that lists the boards,
shows a board's newest messages and posts new ones. The two talk over TCP.
Each message is a pickled dictionary behind a 10-byte header that gives
the pickle's length in decimal, left-justified and padded with spaces.

The model is split into modules:

- `Wrappers` holds `Option` and `Outcome`. `Outcome` is a value, or `Raised`
  for an exception the program does not catch.
- `Strings` models the Python text operations the code relies on: `str(n)`,
  `int(s)`, `split`, `replace`, `join`, and ASCII bytes.
- `Framing` models the header, the frame, and the reassembly loop both ends
  run over `recv`. The server's `get_data` is an imperative loop proved
  against that loop's specification.
- `Messages` models message file names and the `date_value` sort key. It
  also has the stable descending sort, the cut to the newest 100, and the
  title dictionary `load_messages` builds.
- `Store` models the folder as a map and the listings `os.listdir` returns.
  It covers `new_message`, `load_messages`, `GET_BOARDS`,
  `check_for_boards` and the command switch. The class `BoardStore` holds
  the folder: its `PostMessage` writes one file and its `GetMessages`
  reads the kept files in a loop.
- `BulletinServer` models the `Server` object as a class. It covers the
  connection registry, the `run` flag and its setter, `listen_out`,
  `client_disconnect`, `shut_down`, the log, the responses sent, and one
  round of `handle_client`.
- `BulletinClient` models the client's `listen` loop and the frame
  `serialise_and_send` builds. It also covers handling the `GET_BOARDS`
  reply, the menu, board-number validation, and the `send_message` input
  loop.

Sockets, keyboard input and the clock are inputs:

- what `recv` returns is a sequence of events (a chunk of bytes, or a
  timeout on the client);
- typed lines are a sequence of strings;
- the time of a post is a `Timestamp` value.

Pickle is not modelled: a payload is opaque bytes, and the dictionary it
stands for is passed alongside.

The model follows the code in two places where a reader might expect
otherwise:

- Clearing the run flag is not terminal in the code. The setter accepts
  `True` as well; nothing in the code sets the flag back.
- A load returns one entry per distinct title among the kept files. It
  can return fewer than 100 entries when titles collide, and then the
  later file in sorted order wins.

## Model

| member | source | states |
|---|---|---|
| Strings.Decimal | server.py:76 | str(n) of a length is a non-empty string of decimal digits |
| Strings.DecimalValue | server.py:76 | the digits of str(n) denote n, so int() of them gives the length back |
| Strings.DecimalWidth | server.py:9-10 | str(n) fits in k characters exactly when n < 10^k, so the header holds lengths up to 10^10 - 1 |
| Strings.ToCharsToBytes | server.py:76 | encoding the ASCII header text to bytes and reading the bytes back as characters gives the same text |
| Strings.ParseDigitsPadded | server.py:89 | int() of a digit string followed by any number of spaces is the number the digits denote |
| Strings.DigitsValueConcat | server.py:197 | the number two concatenated digit strings denote is the first shifted left by the second's length plus the second |
| Strings.SplitAtFirst | server.py:196 | splitting at a separator whose first occurrence follows a separator-free prefix gives that prefix, then the split of the rest |
| Strings.SplitWithoutSeparator | server.py:183 | a string without the separator splits into itself alone |
| Strings.ReplaceBack | server.py:124 | replacing a by b and then b by a restores a text that had no b |
| Framing.HeaderRoundTrip | server.py:76 | the header is exactly 10 bytes if and only if the length is below 10^10, and int() of such a header is the length |
| Framing.FrameLayout | server.py:76 | a frame is 10 header bytes then the payload, and its first 10 bytes parse to the payload's length |
| Framing.GetData | server.py:79-91 | the receive loop returns what the reassembly specification gives for its chunks, and never a timeout |
| Framing.NeverTimesOut | server.py:83-91 | reassembly over data chunks alone never ends in a timeout |
| Framing.FeedToEnd | server.py:84-90 | once the declared size is known, chunks that complete the frame yield its payload whatever follows |
| Framing.FeedPartial | server.py:84-90 | chunks that stay short of the frame's end only add to the buffer |
| Framing.ReassembleFrame | server.py:83-91 | a frame cut into non-empty chunks, the first holding the header, reassembles to exactly its payload |
| Framing.SingleChunk | server.py:83-91 | a frame received in one chunk yields its payload |
| Framing.CutShortDisconnected | server.py:83-91 | after a proper prefix of a frame, received in non-empty chunks whose first holds the whole header, an empty chunk ends the receive in Disconnected |
| Framing.CutShortTimedOut | client.py:131-146 | on the client, after a proper prefix of a frame, received in non-empty chunks whose first holds the whole header, a receive that times out ends in TimedOut |
| Framing.ShortFirstChunk | server.py:89 | a first chunk shorter than the header fixes the declared size from the digits it holds, so a 12-byte payload whose header arrives as 1 + 9 bytes is read as its first byte |
| Framing.OverlongChunk | server.py:83-91 | a first chunk carrying more than the frame its header declares never meets the stop test: alone it leaves the loop waiting for more data, and no sequence of later chunks makes it deliver a payload |
| Framing.OverlongForever | server.py:83-91 | once the buffer holds more than the declared frame, no sequence of further chunks ever makes the loop deliver a payload |
| Messages.Pad | server.py:161 | a zero-padded field has exactly its width and only digits |
| Messages.PadValue | server.py:161 | a zero-padded field denotes the number padded |
| Messages.StampDigits | server.py:161 | the date and time fields of a file name together are digits denoting the nested sort key of the timestamp |
| Messages.FileNameFields | server.py:161-162 | a file name splits on '-' into date, time and the title part with '.txt' |
| Messages.DateValueOfFileName | server.py:193-198 | date_value of a posted file name is the timestamp's sort key |
| Messages.SortKeyChronological | server.py:179 | on valid timestamps the sort keys compare as the timestamps do chronologically, and are equal only for equal timestamps |
| Messages.TitleOfFileName | server.py:183 | a title with no '-', '.' or '_' is recovered from its file name |
| Messages.InsertDescPermutes | server.py:179 | inserting into the sorted list adds exactly that element |
| Messages.InsertDescSorted | server.py:179 | inserting into a descending list keeps it descending |
| Messages.SortDescFacts | server.py:179 | the sort yields a descending permutation of its input |
| Messages.NewestAreLatest | server.py:179-180 | the kept names number min(100, n); each comes from the input; no left-out name has a larger key than a kept one; with at most 100 names all are kept |
| Messages.KeptAreNewest | server.py:178-180 | the same facts as NewestAreLatest, stated over the listed file names and their date values |
| Messages.KeptDescending | server.py:179-180 | the kept names are in descending date_value order, newest first, as the reverse sort and the cut leave them |
| Messages.CollectDefined | server.py:182-185 | the dictionary is built exactly when every kept name's title parses |
| Messages.CollectSound | server.py:182-186 | every title in the dictionary comes from a kept file and maps to that file's content |
| Messages.CollectComplete | server.py:182-186 | every kept file's title is in the dictionary, which has no more entries than kept files |
| Messages.CollectShows | server.py:182-186 | every title shown maps to the content of a kept file with that title, and every kept file's title is shown |
| Messages.CollectUnique | server.py:185 | a kept file whose title no other kept file shares is shown with its own content |
| Messages.KeptOne | server.py:178-180 | a listing of one readable name keeps that name |
| Messages.CollectOne | server.py:182-186 | one kept file gives a one-entry dictionary |
| Store.Absent | server.py:156 | the filtered fields are exactly the required fields the request lacks, each once |
| Store.MissingFields | server.py:155-157 | the missing list names exactly the absent fields among Command, Board, Name and Message, each once, and is empty exactly when all four are present |
| Store.NewMessage | server.py:152-167 | missing fields or an unknown board answer ERROR and leave the store unchanged; otherwise OK, with exactly one file named from the timestamp and title added or overwritten in the board, and everything else unchanged |
| Store.KeptInDir | server.py:176-180 | every kept name is a file of the board, and at most 100 are kept |
| Store.LoadMessages | server.py:170-190 | no Data key or an unknown board answers the matching ERROR; an exception happens only for a known board; OK carries at most 100 titles |
| Store.CheckForBoards | server.py:136-149 | the store counts as healthy exactly when the board folder exists and holds at least one board |
| Store.Dispatch | server.py:123-131 | an unknown command answers Invalid command; only POST_MESSAGE changes the store; only GET_MESSAGES can raise |
| Store.BoardStore.PostMessage | server.py:152-167 | the write leaves the folder and the response as NewMessage says |
| Store.BoardStore.GetMessages | server.py:170-190 | the reading loop returns what LoadMessages says |
| Store.ReadMessages | server.py:182-186 | the loop over the kept names builds exactly the title-to-content dictionary Collect defines, or fails where Collect does |
| Store.BoardNameRoundTrip | server.py:158 | a board name without '_' survives the trip to a directory name and back, and a directory name without ' ' the reverse trip |
| Store.GetBoardsNames | server.py:123-124 | GET_BOARDS answers OK with as many names as boards, each name the display name of a board and every board's display name present |
| Store.LoadKeepsNewest | server.py:176-180 | a successful load keeps min(100, files) files of the board, all date-readable, and leaves none out that is newer than one kept |
| Store.LoadIsCollect | server.py:176-188 | a successful load's dictionary is the one built from the kept files of the board, all of which are in the board |
| Store.LoadShowsKept | server.py:182-188 | a successful load maps each title to the content of a kept file with that title, and shows every kept file's title |
| Store.LoadShowsUniqueTitle | server.py:178-188 | on a well-named board, a file with a title of its own is shown under it with its content, provided the board has at most 100 files or that file is newer than every other |
| Store.FileKept | server.py:179-180 | a file survives the cut to 100 when the board has at most 100 files or every other file is older |
| Store.PostThenLoad | server.py:152-190 | posting to an existing board succeeds and adds the one timestamped file. Take a well-named board where no file has the new title, and a title without '-', '.' or '_'. The board must have fewer than 100 files, or every file on it must be older than the post. Then the directory listing with the new file added is a valid listing, and GET_MESSAGES, given any valid listing of the new state in any order, reads the title back with the posted content |
| Store.ListsAfterWrite | server.py:161-163 | writing a file the board did not have yet adds exactly that name to the board's listing and leaves every other listing as it was |
| Store.PostToEmptyBoard | server.py:158-165 | posting to an empty board answers OK and leaves it with exactly the one new file |
| Store.LoadSingleMessage | server.py:176-188 | a board holding one plainly titled message loads as exactly that title mapped to that content |
| BulletinServer.Server.constructor | server.py:16-46 | `__init__` followed by a successful `make_socket`: a new server has no connections, is running with its listening socket open, and has logged and sent nothing |
| BulletinServer.Server.SetRun | server.py:31-35 | assigning a bool sets the flag; assigning anything else leaves it unchanged |
| BulletinServer.Server.ListenOut | server.py:51-60 | an accepted connection is registered under its address; a timeout changes nothing |
| BulletinServer.Server.ClientDisconnect | server.py:93-97 | a known client's connection is closed and exactly its key removed; an unknown client raises and changes nothing |
| BulletinServer.Server.ShutDown | server.py:99-104 | every registered connection is closed once, the registry ends empty, the listening socket is closed, and the exit status is 1 |
| BulletinServer.Server.Log | server.py:62-67 | one entry of client, command and status is appended |
| BulletinServer.Server.SendData | server.py:69-77 | one response is sent on the connection |
| BulletinServer.Server.HandleOnce | server.py:107-133 | one round does nothing when not running. It disconnects on a closed socket or an empty request, and crashes on a bad header or a missing Command. With an unhealthy store it stops the server and only logs ERROR. Otherwise it sends and logs the switch's answer and applies its store change, or crashes with the lock held when loading raises |
| BulletinServer.Server.Answer | server.py:123-132 | with a healthy store, the reply sent and the status logged are the command switch's answer and the store takes its new state; a load that raises sends and logs nothing |
| BulletinClient.Listen | client.py:126-146 | the client's receive loop returns what the reassembly specification gives for its events |
| BulletinClient.SerialiseAndSend | client.py:113-123 | the client's frame is Encode of the pickled request, the very frame the server's send_data builds, so the header-format lemmas and ClientToServer apply to it; it is the 10-byte header then the payload, its header parses to the payload's length, it reads back as the payload, and the reply is reassembled as specified |
| BulletinClient.MenuAction | client.py:16-30 | digits select a board when in range and are rejected otherwise; POST and QUIT are recognised |
| BulletinClient.FirstValid | client.py:70-75 | the validation loop stops at the first typed line that names a board, every earlier line being rejected |
| BulletinClient.SendMessage | client.py:64-80 | the request is sent exactly when lines remain for a title and message after the first valid board number, and names the board at that number with the next two lines |
| BulletinClient.PrintedNumberSelects | client.py:56-57 | typing the number printed beside a board selects that board |
| BulletinClient.ClientSeesBoards | client.py:52-59 | the client keeps exactly the list of display names the server's GET_BOARDS answer carries |
| BulletinClient.ClientToServer | client.py:120 | a client frame cut into chunks whose first holds the header is reassembled by the server to the pickled bytes |

## Left out

- Sockets are left out: `make_connection`, `accept`, `send`, `recv` and timeouts. What `recv` returns is a sequence of events. The 1024-byte chunk bound is not needed by any property. Both ends write with `send` (server.py:77, client.py:121), not `sendall`. `send` may write only part of the frame, and the client's socket has a 10-second timeout (client.py:106), which makes it non-blocking underneath, so a short write can happen there. The model assumes the whole frame is written, and Framing.ReassembleFrame and BulletinClient.ClientToServer rest on that.
- Threads and the global lock are left out. One round of `handle_client` is an atomic step. `Crashed(true)` marks the case where an exception leaves the lock held.
- The `while server.run` loop of `handle_client` is modelled one round at a time.
- `make_socket` is folded into the constructor, which stands for `__init__` followed by a successful bind and listen; a bind failure, which exits the process, is left out.
- The server's `main` accept loop is left out; `ListenOut` models its one call.
- `pickle.dumps` and `pickle.loads` are not modelled. Payloads are opaque bytes, and the request dictionary comes in as a separate input.
- The filesystem is a map. Entries are names only, so a non-directory `board` entry, a path separator in a title, and file-system errors are outside the model. `os.listdir` order is an input that must list every key exactly once.
- `datetime.now()` is an input. Years are assumed to have four digits, as `%Y` writes them for years 1000 to 9999. The log line's own time and text formatting are left out; the log is a sequence of entries.
- `print`, `input`, the message printing of `view_messages`, the post result printing in `send_message`, and `sys.argv` parsing are user-interface glue. Process exits are results (`Exit`, `ShutDown`'s status).
- Strings.ParseInt: models the whitespace that `int()` strips from bytes (space and `\t` through `\r`, which is all it strips from a frame header, server.py:89), one sign and ASCII digits. Digit-group underscores, which `int()` accepts in both bytes and `str`, are not modelled; nor are the further characters it strips from a `str` (the date value, server.py:198), U+001C through U+001F and non-ASCII spaces, nor the non-ASCII digits it accepts there.
- BulletinClient.BoardChoice: `str.isdigit` is modelled for ASCII digits only.
- Store.MissingFields: Python takes the missing fields out of a set, so their order in the message is arbitrary. The model lists them in the order Command, Board, Name, Message. The contract states the set and the absence of repeats, not the order.
- Messages.SortDescFacts: proves the result is descending and a permutation. It does not state that equal keys keep their listing order; that holds by the construction of `InsertDesc`, matching Python's stable sort with `reverse=True`.
- BulletinClient.ViewBoards: an OK reply whose data is not a list cannot come from the server; the model treats it as an exit.
- Store.PostThenLoad: file contents are stored and read back unchanged. The newline translation of Python's text-mode `open` (a `\r\n` or a lone `\r` in a posted message is read back as `\n`, server.py:184) is not modelled, and neither is the text-mode write raising on content its encoding cannot represent, such as a lone surrogate (server.py:162-163).
- Store.LoadSingleMessage: the same holds; the content is read back unchanged, with no newline translation and no encoding failure modelled.
- Store.LoadMessages: the loaded dictionary is a `map`, which has no order. Python's dict keeps insertion order: the kept files newest first, with a repeated title staying at its first position and taking the later file's content. `view_messages` prints in that order. The model states the order of the kept names (Messages.KeptDescending) but not the order of the dictionary's entries.
- BulletinClient.Listen: when the events run out without a verdict, the result is `Starved`, standing for a receive that would wait.
