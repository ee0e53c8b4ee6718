# Models of make_index, phttpget and forkfd for DragonFly

Three C programs of this repository hold whole algorithms rather than platform fixes. This project
restates each of them in Dafny, in its own imperative form, and proves what it is for.

**make_index** (`CStrings` to `MakeIndex`) turns describe lines into a ports INDEX. `PORT` is a class
with a colour and five growable lists; lists of pointers, ports under expansion and the count field that
holds a capacity in between are modelled as they are. The search is verified against walks in the
dependency graph, heapsort and binary search against a total order, and the whole program against
`MakeIndex.IsRun`, which says what an INDEX is in terms of directories, reachability and sorted names. From that
specification alone follow the independence of the order of the input and the rereading of printed lines.

**phttpget** (`Base64` to `Server`) fetches files over pipelined HTTP. Sockets deliver a fixed but
unknown stream in pieces of any size and stop by a clean close or an error; sends take any part of what
is offered. The receive buffer is an array that is compacted and refilled in place. `Response.ReadReply`
says what a stream means; the reading loops are proved to compute it however the stream is cut.
`Fetch.Client` is the state machine of the main loop, with the history of its connections as ghost state.
`Answers` writes responses by the grammar of HTTP, independently of how they are read, `Wire` and
`InterimHeaders` say what becomes of lines, chunks and 1xx headers, and `Server` builds the streams of
servers that answer in order and may die anywhere, and proves that the client's replies and files are
the server's answers.

**forkfd** (`ForkHandshake`, `ForkWait`) watches a child through a kqueue. The handshake is a state
machine of both processes in which every system call is a step, either process may be killed at any time
and calls may be interrupted; the parent's code is a method that is proved to be a run of it, with the
child running on between any two calls. The wait routine works on an explicit queue of one-shot events
and is compared with an ideal child that needs none.

## What does not hold

Where the code falls short of its comments or of a standard, the model follows the code, and the
condition under which the two agree is proved in both directions.

- base64 (`Base64.AgreesWithRfc`, `Base64.DecodesToText`): a group of one byte gets one padding character instead of two, and a group of two bytes none instead of one, so decoders see a zero byte more; and a plain char above 127 borrows from the byte before it in its group, on platforms where char is signed.
- Chunked bodies (`Wire.ChunkedExact`): the line break behind the data of a chunk is read as a size of zero, so that only bodies of at most one data chunk arrive as they were sent.
- 1xx headers (`InterimHeaders.InterimExact`): the comment at lines 560-565 of phttpget.c says they are ignored, but a length, a transfer encoding or a keep-alive they announce is kept for the response behind them, and their version or Connection field decides about pipelining unless that response does so itself.
- Number parsing (`Headers.DecimalSums`, `Headers.HexSums`): an accepted value never exceeds OFF_MAX, but the sum formed before the character of zero, or of a, is subtracted does, exactly when all digits but the last are worth 922337203685477576 or more in decimal, and in hexadecimal 576460752303423485, 576460752303423482 or 576460752303423481, for a last digit from 0 to 9, from a to e, or f.
- Reading back (`Index.PrintedLineSplits`): a dependency field is read back as the names it lists exactly if none has a space in it and it is not one empty name.
- Waiting (`ForkWait.IdealExactlyIfSmooth`): the exit event is consumed before wait4 is called, so a reaping wait that a signal interrupts while the child is still exiting leaves the child unfindable; so does reaping it behind the descriptor's back.

## Model

| member | source | states |
|---|---|---|
| MakeIndex.Run | scripts/portsnap/make_index/make_index.c:423-512 | Every run over every list of lines is a run of the specification: the first bad line is reported; otherwise the records are arranged by directory and, in this order of precedence, an unresolved name is reported, a port that depends upon itself is reported, or exactly the INDEX is printed. |
| MakeIndex.OrderIndependent | scripts/portsnap/make_index/make_index.c:478-509 | Two runs over the same set of lines, in any order and with distinct directories, agree on success and print the same INDEX. |
| MakeIndex.OutcomeUnique | scripts/portsnap/make_index/make_index.c:490-509 | For given sorted records success and output are determined, although heapsort leaves ports of equal package name in any order. |
| MakeIndex.AscendingUnique | scripts/portsnap/make_index/make_index.c:478-488 | Records with distinct directories have only one arrangement in path order. |
| Index.TargetsMean | scripts/portsnap/make_index/make_index.c:490-495 | Each entry of the graph is a record in the directory named, and if directories are distinct it is the only one; of several, it is the one that binary search arrives at. |
| Index.EdgesMean | scripts/portsnap/make_index/make_index.c:255-270 | Each of the five lists of a node of the graph has one entry for each name of that list of the record, a record in the directory named. |
| MakeIndex.ReadPorts | scripts/portsnap/make_index/make_index.c:446-459 | All lines are read into ports that carry their records in order and share no list block, or the first bad line decides. |
| CStrings.TerminatedExact | scripts/portsnap/make_index/make_index.c:449-449 | A text without NUL is read whole, and anything behind a NUL is not read. |
| MakeIndex.ReadExact | scripts/portsnap/make_index/make_index.c:132-171 | The same for one line, which is corrupt exactly if it has not 13 fields. |
| MakeIndex.FileExact | scripts/portsnap/make_index/make_index.c:446-459 | A file of lines, each some fields joined by separators and a newline, is read as exactly these records, in order, if and only if each line has 13 fields that say what its record holds: fields 0 to 6 and 12 the texts, fields 7 to 11 the names of the extract, patch, fetch, build and run dependencies, each spelled with or without one final slash. |
| MakeIndex.UnterminatedExact | scripts/portsnap/make_index/make_index.c:447-448 | A line is refused as unterminated exactly if it does not end in a newline. |
| MakeIndex.FirstBad | scripts/portsnap/make_index/make_index.c:446-459 | Lines behind the first bad one have no influence. |
| MakeIndex.ReadAllClean | scripts/portsnap/make_index/make_index.c:446-459 | No text field of any record read holds a field separator. |
| MakeIndex.SortPorts | scripts/portsnap/make_index/make_index.c:478-488 | The ports become a permutation in ascending path order, their records with them, and nothing else about them changes. Of two directories that differ the one that ends first stands first, else the one with a slash where they differ, else the one with the smaller signed character there. |
| Resolve.Contiguous | scripts/portsnap/make_index/make_index.c:194-197 | In ascending order the directories below one directory stand together. |
| MakeIndex.TranslatePort | scripts/portsnap/make_index/make_index.c:255-270 | Over sorted ports, every entry of all five lists afterwards refers to a port whose directory is the name that stood there; or the name reported is in one of the lists and is no port's directory. |
| MakeIndex.TranslateAll | scripts/portsnap/make_index/make_index.c:494-495 | The same for all ports; the error names a port and one of its dependencies that is nobody's directory. |
| MakeIndex.RecursePorts | scripts/portsnap/make_index/make_index.c:501-502 | Recursion over the sorted ports succeeds exactly if the graph of the records is acyclic; the package name reported belongs to a record on a cycle. |
| MakeIndex.CycleReported | scripts/portsnap/make_index/make_index.c:312-315 | A port on a cycle of pointers is a record that depends upon itself. |
| MakeIndex.PrintAll | scripts/portsnap/make_index/make_index.c:508-509 | The output is the INDEX of the records. |
| CStrings.PortCompare | scripts/portsnap/make_index/make_index.c:174-204 | The loop returns a negative, zero or positive number exactly if the first string precedes, equals or follows the second, NUL lowest, then slash, then the other characters as signed chars. |
| CStrings.PrefixFirst | scripts/portsnap/make_index/make_index.c:188-192 | A proper prefix comes first, in portcompare and in strcmp. |
| CStrings.SlashFirst | scripts/portsnap/make_index/make_index.c:194-197 | A category and a slash precede every other continuation of the category name, whatever follows. |
| CStrings.CharactersDecide | scripts/portsnap/make_index/make_index.c:199-203 | Behind a common beginning, of two characters that are neither NUL nor slash the smaller signed one decides. |
| CStrings.CmpMeaning | scripts/portsnap/make_index/make_index.c:174-204 | The sign of the comparison is the lexicographic order defined by the first differing position. |
| CStrings.LexTransitive | scripts/portsnap/make_index/make_index.c:174-204 | That order is transitive. |
| CStrings.ComparisonsAreTotalOrders | scripts/portsnap/make_index/make_index.c:174-204 | Both portcompare and strcmp are total orders, with zero only for equal strings. |
| CStrings.BytesDecide | scripts/portsnap/make_index/make_index.c:331-356 | Package names compare by the first byte that differs, unsigned. |
| HeapSort.Heapify | scripts/portsnap/make_index/make_index.c:206-230 | Sifting down makes a heap of a subtree whose root alone was out of place, permutes the first size cells and touches no other. |
| HeapSort.SiftStep | scripts/portsnap/make_index/make_index.c:213-229 | One swap moves the hole to the larger child and keeps every other parent at least its children, across the hole as well. |
| HeapSort.RootIsMax | scripts/portsnap/make_index/make_index.c:483-488 | The root of a heap is at least every element. |
| HeapSort.Extracted | scripts/portsnap/make_index/make_index.c:483-488 | Moving the root behind the shrinking heap keeps the end sorted and above the rest. |
| HeapSort.Sort | scripts/portsnap/make_index/make_index.c:478-488 | The array becomes a sorted permutation of itself; cells behind the first n stay. |
| Resolve.FindPort | scripts/portsnap/make_index/make_index.c:233-252 | Binary search returns the port at the index that the search function arrives at, or none. |
| Resolve.SearchCorrect | scripts/portsnap/make_index/make_index.c:233-252 | On a sorted range it finds something exactly if linear search would, and what it finds has the directory asked for. |
| Resolve.TranslateList | scripts/portsnap/make_index/make_index.c:260-269 | A list of names becomes a list of ports with those directories; or a name that is in the list and is no port's directory is reported. |
| Describe.Strsep | scripts/portsnap/make_index/make_index.c:121-121 | Takes the first token of the split and leaves the rest of the split. |
| Describe.CountOf | scripts/portsnap/make_index/make_index.c:110-114 | Counts the separators. |
| Describe.SplitCount | scripts/portsnap/make_index/make_index.c:138-143 | A line has one field more than separators, so the count of 12 makes 13 fields. |
| Describe.JoinSplit | scripts/portsnap/make_index/make_index.c:149-161 | Joining the fields again gives the line, and no field holds a separator. |
| Describe.SplitJoin | scripts/portsnap/make_index/make_index.c:389-407 | Fields without separators survive joining and splitting. |
| Describe.MakeList | scripts/portsnap/make_index/make_index.c:98-129 | Yields exactly the tokens, each without one trailing slash, in a block of exactly that size; fails exactly if a token is empty. |
| Describe.ListExact | scripts/portsnap/make_index/make_index.c:98-129 | A field is read as given names exactly if it consists of them, each with or without one final slash, separated by single spaces. |
| Describe.Portify | scripts/portsnap/make_index/make_index.c:132-171 | Succeeds exactly if the line has 13 fields and no empty token; the port then carries the parsed record, in five separate new blocks. |
| Describe.ParseRestores | scripts/portsnap/make_index/make_index.c:138-161 | From every record that is parsed the line can be written again: it is 13 fields without separators, joined, that say what the record holds. |
| Describe.ParseExact | scripts/portsnap/make_index/make_index.c:132-171 | And 13 fields, joined, are parsed as exactly the record they say; any other number is corrupt. |
| Recursion.RecurseAll | scripts/portsnap/make_index/make_index.c:501-502 | Succeeds exactly if the union of the five direct graphs is acyclic; then every list is its closure and of its true length; otherwise a port that reaches itself is reported. |
| Recursion.AllFinished | scripts/portsnap/make_index/make_index.c:501-502 | When every port is finished, the graph is acyclic and each list is its direct entries in place, followed by each other port that run dependencies reach from one of them, once. |
| Recursion.Recurse | scripts/portsnap/make_index/make_index.c:304-329 | One call finishes a white port, and its whole invariant keeps: finished lists never change again, nothing on the stack is disturbed, the number of white ports falls. |
| Recursion.BackEdgeCloses | scripts/portsnap/make_index/make_index.c:312-315 | A port met while it is being recursed lies on a cycle. |
| Recursion.RecurseOne | scripts/portsnap/make_index/make_index.c:273-301 | The list becomes the expansion of its direct entries by the finished run lists, the count field its true length again, in a block at most twice as long. |
| Recursion.RecurseEntry | scripts/portsnap/make_index/make_index.c:279-281 | One entry: the port is recursed first, so that the run list read is one of a finished port. |
| Recursion.AddFinished | scripts/portsnap/make_index/make_index.c:281-296 | Adding the run list of a finished port leaves every colour and every other list as it was, although the count field holds a capacity meanwhile. |
| Recursion.AddRunList | scripts/portsnap/make_index/make_index.c:281-296 | The middle loop appends what the run list has and the list has not, each port once. |
| Recursion.AddMissing | scripts/portsnap/make_index/make_index.c:282-295 | The inner loop and the append: the port is added exactly if absent, always inside the block, which is at least as long as the list and at most twice as long. |
| Recursion.ExpandSlot | scripts/portsnap/make_index/make_index.c:321-325 | One assignment of the expanded block back into the port. |
| Recursion.ExpandAll | scripts/portsnap/make_index/make_index.c:321-325 | All five lists are expanded. |
| Recursion.Push | scripts/portsnap/make_index/make_index.c:307-311 | White becomes grey, and the stack stays a path. |
| Recursion.Pop | scripts/portsnap/make_index/make_index.c:327-328 | Grey becomes black; the finished ports stay a topological order. |
| Graphs.RunListComplete | scripts/portsnap/make_index/make_index.c:281-296 | A finished run list holds whatever a walk of any length along run dependencies reaches. |
| Graphs.RunListSound | scripts/portsnap/make_index/make_index.c:281-296 | And it holds nothing else. |
| Graphs.ExpandedIsClosure | scripts/portsnap/make_index/make_index.c:278-300 | Expanding each list by finished run lists, in finishing order, yields the transitive closure. |
| Graphs.ClosureHasNext | scripts/portsnap/make_index/make_index.c:281-296 | With a port, a closure holds all its run dependencies. |
| Graphs.ClosureHasPrevious | scripts/portsnap/make_index/make_index.c:281-296 | Whatever a closure adds to its direct entries is a run dependency of another port in it. |
| Graphs.TopologicalIsAcyclic | scripts/portsnap/make_index/make_index.c:327-328 | A finishing order proves that there is no cycle. |
| Graphs.EdgesAre | scripts/portsnap/make_index/make_index.c:317-325 | A port depends upon what any of its five lists holds; only its run list is followed further. |
| Graphs.PathCloses | scripts/portsnap/make_index/make_index.c:312-315 | An edge back into a path closes a cycle. |
| Graphs.ClosureUnique | scripts/portsnap/make_index/make_index.c:278-300 | Two closures of the same direct list hold the same ports equally often. |
| Mirror.AcyclicMirrors | scripts/portsnap/make_index/make_index.c:494-502 | The graph of port pointers has a cycle exactly if the graph over record numbers has one. |
| Mirror.ClosureMirrors | scripts/portsnap/make_index/make_index.c:494-502 | A closure in pointers is a closure in record numbers. |
| Index.SortedUnique | scripts/portsnap/make_index/make_index.c:358-375 | Sorting by package name has one result. |
| Index.ColumnUnique | scripts/portsnap/make_index/make_index.c:383-407 | A dependency field is determined by the records. |
| Index.IndexUnique | scripts/portsnap/make_index/make_index.c:508-509 | So is the whole INDEX. |
| Index.ConcatFirst | scripts/portsnap/make_index/make_index.c:508-509 | The line of the first record is printed first. |
| Index.PrintedLineSplits | scripts/portsnap/make_index/make_index.c:389-407 | A printed line splits again into its 13 fields in INDEX order, and each dependency field into the sorted package names of its list exactly if none of them has a space in it and it is not one empty name. |
| Index.LinePrintedFrom | scripts/portsnap/make_index/make_index.c:377-408 | The same for one line and its record. |
| Index.TokensJoin | scripts/portsnap/make_index/make_index.c:392-407 | Names joined by spaces split into the same names under exactly that condition. |
| Index.SpaceSplits | scripts/portsnap/make_index/make_index.c:392-393 | The package name "a b" is read back as two. |
| MakeIndex.IndexSplits | scripts/portsnap/make_index/make_index.c:443-509 | The whole output of a successful run is a concatenation of such lines, one for each record. |
| MakeIndex.RunPrintsFields | scripts/portsnap/make_index/make_index.c:443-509 | In terms of input fields: there are as many lines as in the input, in path order of their directories, and each belongs to an input line; its fields 0 to 6 and 9 are the input fields 0 to 6 and 12, and its fields 7, 8, 10, 11 and 12 list the package names, in byte order, of the closures of the ports in the directories that input fields 10, 11, 7, 8 and 9 name. The lines stand one behind the other. |
| Index.ParseClean | scripts/portsnap/make_index/make_index.c:149-161 | Parsed text fields hold no field separator. |
| Printing.SortPkgs | scripts/portsnap/make_index/make_index.c:358-375 | The list becomes a permutation of itself sorted by package name. |
| Printing.PrintList | scripts/portsnap/make_index/make_index.c:392-393 | The loop prints the package names separated by single spaces. |
| Printing.SortLists | scripts/portsnap/make_index/make_index.c:383-387 | All five lists of a port are sorted, none by way of another's block. |
| Printing.PrintPort | scripts/portsnap/make_index/make_index.c:377-408 | The line is the 13 fields joined, each dependency field the sorted names of its list; Index.LinePrintedFrom says which field is which. |
| Base64.B64Enc | scripts/portsnap/phttpget/phttpget.c:69-118 | Returns NULL exactly for texts beyond the guard or without memory; else a block of four characters per group and a NUL, holding the encoding, whose size is at most SIZE_MAX. |
| Base64.Alphabet | scripts/portsnap/phttpget/phttpget.c:70-73 | The 64 digits are the letters, upper case first, the decimal digits, plus and slash. |
| Base64.ReadBlock | scripts/portsnap/phttpget/phttpget.c:97-102 | The reading loop computes the 32-bit accumulator of a block, sign extension included. |
| Base64.WriteBlock | scripts/portsnap/phttpget/phttpget.c:104-111 | The writing loop writes the four characters of the block, and nothing else. |
| Base64.AccumulatedIs | scripts/portsnap/phttpget/phttpget.c:97-102 | The wrapped accumulator is the sum of the signed characters modulo the word. |
| Base64.ShiftedSextet | scripts/portsnap/phttpget/phttpget.c:105-110 | Bits 18 to 23 after j shifts are the j-th six bits. |
| Base64.DecodesToText | scripts/portsnap/phttpget/phttpget.c:96-118 | Decoding as in section 4 of RFC 4648 gives the text, followed by a zero byte unless 3 divides its length, exactly if no byte above 127 stands behind the first of its group; for bytes 1 to 127 always. |
| Base64.Injective | scripts/portsnap/phttpget/phttpget.c:96-118 | Different texts have different encodings, for all bytes. |
| Base64.AgreesWithRfc | scripts/portsnap/phttpget/phttpget.c:104-111 | The encoding is the one of the RFC exactly if 3 divides the length and no byte is carried into its neighbour. |
| Base64.OneByteDiffers | scripts/portsnap/phttpget/phttpget.c:106-109 | The text "A" is encoded with one padding character where the RFC has two. |
| Receive.ReadLn | scripts/portsnap/phttpget/phttpget.c:219-248 | Succeeds exactly if the unread stream starts with a line that fits the buffer, however it is cut into pieces, and takes nothing from the stream. |
| Receive.CopyBytes | scripts/portsnap/phttpget/phttpget.c:251-287 | Returns 0 exactly if the stream has that many bytes; they are then delivered in order and the rest is left; on a dead connection all there was is delivered. Without a file the same bytes are consumed. |
| Receive.TakeLine | scripts/portsnap/phttpget/phttpget.c:459-462 | Takes the line and its line break off the stream. |
| Receive.WriteSome | scripts/portsnap/phttpget/phttpget.c:259-270 | One write appends the bytes it reports and takes as many off the stream. |
| Receive.Refill | scripts/portsnap/phttpget/phttpget.c:272-284 | Receiving into an empty buffer keeps the logical stream. |
| Receive.Buffer.Compact | scripts/portsnap/phttpget/phttpget.c:226-232 | Moving the buffered bytes to the front keeps them. |
| Receive.BufferedLine | scripts/portsnap/phttpget/phttpget.c:224-225 | The first line break of the buffer is the first one of the stream; a full buffer without one has none. |
| Receive.CrlfExact | scripts/portsnap/phttpget/phttpget.c:219-248 | The line break found is the first carriage return followed by a line feed, with no NUL before it. |
| Receive.LineEndExact | scripts/portsnap/phttpget/phttpget.c:224-236 | And it ends a line exactly if it lies within the first 1024 bytes. |
| Headers.GuardedExact | scripts/portsnap/phttpget/phttpget.c:523-540 | For base 10 and 16 and digit strings of any length the loop rejects exactly if all digits but the last reach OFF_MAX over the base, and otherwise returns the exact value, at most OFF_MAX. |
| Headers.DecimalSums | scripts/portsnap/phttpget/phttpget.c:531-540 | Of an accepted length, a sum in between, formed before the character of zero is subtracted, exceeds OFF_MAX exactly if all digits but the last are worth 922337203685477576 or more. |
| Headers.HexSums | scripts/portsnap/phttpget/phttpget.c:616-628 | Of an accepted chunk size exactly if they are worth 576460752303423485 before a decimal digit, 576460752303423482 before the letters a to e, and 576460752303423481 before f. |
| Headers.LengthSumOver | scripts/portsnap/phttpget/phttpget.c:531-540 | The length 9223372036854775760 is accepted, and forms such a sum. |
| Headers.ChunkSumOver | scripts/portsnap/phttpget/phttpget.c:616-628 | So does the chunk size 7FFFFFFFFFFFFFE0. |
| Headers.ParseLength | scripts/portsnap/phttpget/phttpget.c:523-540 | The loops return the value of the first digits of the field, or reject; a ghost flag tells whether a sum in between exceeded OFF_MAX. |
| Headers.ParseChunkSize | scripts/portsnap/phttpget/phttpget.c:616-628 | The same for the hexadecimal digits of a chunk-size line. |
| Headers.ParseStatus | scripts/portsnap/phttpget/phttpget.c:493-498 | The loop returns the value of the digits, which fits an int for up to nine of them; it has no guard, and the number is unbounded here. |
| Headers.TakeStatusLine | scripts/portsnap/phttpget/phttpget.c:468-505 | The first line of a header, taken by that loop, sets what the status line function says, or is refused. |
| Headers.StatusLineExact | scripts/portsnap/phttpget/phttpget.c:468-505 | Otherwise it is accepted exactly if the digits behind the first space are worth 100 to 599. |
| Headers.NoStatusLine | scripts/portsnap/phttpget/phttpget.c:468-492 | A line that does not start with HTTP/1. and a digit, or has no space behind it, is refused. |
| Headers.TakeField | scripts/portsnap/phttpget/phttpget.c:507-557 | A later line, its length taken by the guarded loop, sets what the field function says, or is refused. |
| Response.ReadHeaders | scripts/portsnap/phttpget/phttpget.c:449-574 | The header loop finds the head that the stream determines and stops behind its empty line, or fails as the stream does. |
| Response.ReadChunk | scripts/portsnap/phttpget/phttpget.c:607-634 | One chunk is delivered, and what remains is read as if the chunk had not been there. |
| Response.ReadChunked | scripts/portsnap/phttpget/phttpget.c:603-646 | The chunk loop and the trailer deliver what the stream determines. |
| Response.ReadTrailer | scripts/portsnap/phttpget/phttpget.c:637-646 | Skips lines up to the empty one. |
| Response.ReadBodyTo | scripts/portsnap/phttpget/phttpget.c:602-663 | The three ways to read a body deliver what head and stream determine. |
| Response.ReceiveReply | scripts/portsnap/phttpget/phttpget.c:449-669 | The reply is a function of the unread stream alone, whatever the pieces; with status 200 the file of the path then holds exactly its body; no other file changes; what is left unread is what the function leaves. |
| Response.FileNameExact | scripts/portsnap/phttpget/phttpget.c:588-592 | The file is named by what stands behind the last slash of the path, or by the whole path if it has none. |
| Fetch.Client.Run | scripts/portsnap/phttpget/phttpget.c:353-729 | In every run, whatever the server and the network do: each request completed was sent completely on its connection and answered by the reply due to it there; files of their own name hold the bodies; on each connection only requests from its first on were sent, in order; first requests strictly increase, so there are at most as many connections as requests; where no send answers EAGAIN, every request is out before the second and any later reply of a pipelined connection is read; a connection failure is reported only for a connection without a completed reply. And if connecting, sending and writing do not fail, every argument has a file name and every connection yields a first reply, all requests are completed. |
| Fetch.Client.Exchange | scripts/portsnap/phttpget/phttpget.c:387-721 | On a connection a reply is completed, or the connection is given up if it had completed one, or the program stops for a reason that is explained; behind a reply the connection is given up exactly if it had a body and neither pipelining nor keep-alive is on. |
| Fetch.Client.Round | scripts/portsnap/phttpget/phttpget.c:354-722 | The same for a round on the connection there is or a new one. |
| Fetch.Client.SendRound | scripts/portsnap/phttpget/phttpget.c:387-447 | After sending, the request to be answered next is out; without pipelining no further one is; with pipelining all are, unless a send answered EAGAIN. |
| Fetch.Client.SendAhead | scripts/portsnap/phttpget/phttpget.c:399-426 | Sending ahead keeps the bytes sent equal to the complete requests and the sent part of the next, across partial sends and EAGAIN; with pipelining every request is then out, unless a send of this call answered EAGAIN or the connection died; without pipelining nothing is sent. |
| Fetch.Client.SendBlocking | scripts/portsnap/phttpget/phttpget.c:435-447 | The same for a blocking send. |
| Fetch.Client.SendSome | scripts/portsnap/phttpget/phttpget.c:409-416 | The same for one send. |
| Fetch.Client.RequestSent | scripts/portsnap/phttpget/phttpget.c:421-424 | A request counts as sent when its last byte is. |
| Fetch.Client.MakeRequest | scripts/portsnap/phttpget/phttpget.c:402-406 | The request buffer is filled with request nreq. |
| Fetch.Client.Connect | scripts/portsnap/phttpget/phttpget.c:355-386 | A new connection starts with the first unanswered request; the addresses are tried in turn, none left out, until one connects or all have failed. |
| Fetch.Client.ReceiveOne | scripts/portsnap/phttpget/phttpget.c:449-682 | A reply is read only for a request that is out; it completes that request and no other. |
| Fetch.Client.Cleanup | scripts/portsnap/phttpget/phttpget.c:703-721 | Everything about the connection is forgotten, and requests are reissued from the first unanswered one. |
| Fetch.ConnectionsBounded | scripts/portsnap/phttpget/phttpget.c:354-386 | Strictly increasing first requests bound the number of connections. |
| Fetch.NewConnection | scripts/portsnap/phttpget/phttpget.c:385-385 | A connection opened after progress keeps the history. |
| Fetch.FilesKept | scripts/portsnap/phttpget/phttpget.c:586-600 | Truncating and writing one file leaves the files of earlier requests alone. |
| Server.DownloadsAreAnswers | scripts/portsnap/phttpget/phttpget.c:353-722 | With servers that write well-formed answers in order, by length, in at most one chunk or by closing, and may die anywhere: request i was sent before its reply was read, and the reply counted for it has the status and the body of the answer given to it on its connection, and a download with status 200 holds that body. |
| Server.FirstAnswerArrives | scripts/portsnap/phttpget/phttpget.c:449-669 | A connection on which the first answer arrives whole yields a reply. |
| Server.ServedInOrder | scripts/portsnap/phttpget/phttpget.c:449-690 | The k-th reply read from such a connection is the k-th answer. |
| Server.BundleRead | scripts/portsnap/phttpget/phttpget.c:449-690 | Conversely, where any number of complete well-formed answers of known extent arrive in one stream, each is read in turn with its status and body, and what stands behind them is left alone, however the bytes are cut. |
| Server.AnswerRead | scripts/portsnap/phttpget/phttpget.c:449-669 | A complete answer is read with its status and its body, and nothing behind it is touched. The connection is then pipelined exactly if it was, or the answer or a preliminary header of it is of a minor version other than 0, and no Connection field says close; it is kept exactly if one says keep-alive. |
| Server.CodingOverridesLength | scripts/portsnap/phttpget/phttpget.c:602-662 | A chunked coding decides how the body is read, whatever length is announced. |
| Answers.AnswerFolds | scripts/portsnap/phttpget/phttpget.c:468-557 | From the header of a well-formed answer, 1xx headers aside, phttpget takes exactly its status, its length or none, its coding, keep-alive if a Connection field says so, and pipelining if it was on or the minor version is not 0, unless a Connection field says close; whatever other fields stand around them. |
| Answers.ConnectionRead | scripts/portsnap/phttpget/phttpget.c:507-520 | A Connection field, in any spelling, turns pipelining off exactly if its value contains close, and keep-alive on exactly if it contains keep-alive, and changes nothing else. |
| Answers.PlainFolds | scripts/portsnap/phttpget/phttpget.c:507-557 | Any number of other fields set nothing but what Connection fields among them say. |
| Answers.PreliminariesPipeline | scripts/portsnap/phttpget/phttpget.c:483-569 | 1xx headers in front turn pipelining on exactly if one of them has a minor version other than 0. |
| Answers.StatusTextRead | scripts/portsnap/phttpget/phttpget.c:468-505 | From a status line of any minor version, code from 100 to 599 and reason it takes the code. |
| Answers.FramingRead | scripts/portsnap/phttpget/phttpget.c:522-554 | From a length or coding field in any spelling, with any blanks, it takes what the field says. |
| Answers.MentionsExact | scripts/portsnap/phttpget/phttpget.c:514-517 | The search finds a word exactly if it stands somewhere in the value, in any spelling. |
| Answers.LengthPrinted | scripts/portsnap/phttpget/phttpget.c:523-540 | A printed length is accepted, and read as itself, exactly if a tenth of it is below a tenth of OFF_MAX. |
| Answers.SizePrinted | scripts/portsnap/phttpget/phttpget.c:616-628 | A printed chunk size likewise, by sixteenths. |
| Answers.SizeSpelled | scripts/portsnap/phttpget/phttpget.c:616-628 | And so is its every spelling in lower and upper case letters. |
| Answers.WithLength | scripts/portsnap/phttpget/phttpget.c:522-544 | An ordinary response with a Content-Length is well-formed, for every minor version, status from 200 to 599 with a body, reason that fits, fields of other names and body below the guard. |
| Answers.WithChunks | scripts/portsnap/phttpget/phttpget.c:546-554 | So is one with a chunked body of one chunk. |
| Answers.WithoutLength | scripts/portsnap/phttpget/phttpget.c:652-662 | So is one ended by closing, or without a body by its status. |
| Server.ClosedAnswerRead | scripts/portsnap/phttpget/phttpget.c:652-662 | A body ended by closing is everything up to a clean close, and pipelining is off behind it; an error instead loses it. |
| Server.AnswerCut | scripts/portsnap/phttpget/phttpget.c:449-669 | An answer that breaks off is never taken for a reply. |
| Wire.HeadParses | scripts/portsnap/phttpget/phttpget.c:454-574 | A header is read as its lines say, up to its empty line; behind an interim one reading goes on. |
| Wire.HeadCut | scripts/portsnap/phttpget/phttpget.c:454-574 | A header that breaks off is no header. |
| InterimHeaders.InterimExact | scripts/portsnap/phttpget/phttpget.c:483-569 | The response behind any number of 1xx headers is read as if they had not been there exactly if length, chunked and keep-alive are set by the response wherever they set them, and pipelining is as it was before or the response decides about it by its version or by closing. |
| InterimHeaders.PipeliningSettled | scripts/portsnap/phttpget/phttpget.c:483-514 | A header leaves pipelining the same whatever it was before exactly if its minor version is not 0 or a Connection field mentions close. |
| InterimHeaders.PipeliningSticks | scripts/portsnap/phttpget/phttpget.c:483-568 | A 1.1 header of status 100 leaves pipelining on for the 1.0 response behind it. |
| InterimHeaders.InterimFieldsStick | scripts/portsnap/phttpget/phttpget.c:559-569 | A Content-Length in a 103 header is taken for the length of the response behind it. |
| InterimHeaders.InterimSkips | scripts/portsnap/phttpget/phttpget.c:559-569 | Any number of 1xx headers that set no length, coding or keep-alive leave nothing behind but whether pipelining is on. |
| Wire.ChunksRead | scripts/portsnap/phttpget/phttpget.c:606-646 | Of a chunked body only the first chunk is delivered. |
| Wire.ChunkedExact | scripts/portsnap/phttpget/phttpget.c:606-646 | A chunked body is delivered as section 4.1 of RFC 7230 means it exactly if it has at most one data chunk. |
| Wire.SecondChunkLost | scripts/portsnap/phttpget/phttpget.c:606-646 | Two chunks of one byte each: the second is taken for trailer lines. |
| Wire.ChunksCut | scripts/portsnap/phttpget/phttpget.c:606-646 | A chunked body that breaks off is no body. |
| Wire.TrailerSkips | scripts/portsnap/phttpget/phttpget.c:637-646 | Trailer lines are skipped whatever they say. |
| ForkHandshake.ChildReturnsAfterRegistration | ports/devel/qt6-base/dragonfly/patch-src_3rdparty_forkfd_forkfd__dragonfly.c:54-69 | In every interleaving: before the child's last close, and so before it returns, the parent's registration call has returned, or the parent has been killed, or the child's read failed for good. |
| ForkHandshake.NoExitUnnoticed | ports/devel/qt6-base/dragonfly/patch-src_3rdparty_forkfd_forkfd__dragonfly.c:54-86 | Behind a successful forkfd an exit event is pending exactly if the child is not alive, however early it exited. |
| ForkHandshake.ParentLeavesNothing | ports/devel/qt6-base/dragonfly/patch-src_3rdparty_forkfd_forkfd__dragonfly.c:34-86 | On every path of the parent both pipe ends are closed, the queue is open exactly on success, and no child is left behind on failure. |
| ForkHandshake.ParentKeeps | ports/devel/qt6-base/dragonfly/patch-src_3rdparty_forkfd_forkfd__dragonfly.c:34-78 | Each call of the parent keeps the invariant over both processes. |
| ForkHandshake.ChildKeeps | ports/devel/qt6-base/dragonfly/patch-src_3rdparty_forkfd_forkfd__dragonfly.c:54-62 | So does each call of the child, and its end. |
| ForkHandshake.AlwaysInvariant | ports/devel/qt6-base/dragonfly/patch-src_3rdparty_forkfd_forkfd__dragonfly.c:27-87 | So it holds in every state of every run. |
| ForkHandshake.FlagsTellHistory | ports/devel/qt6-base/dragonfly/patch-src_3rdparty_forkfd_forkfd__dragonfly.c:27-87 | What a state records about registration, death and failed reads really occurred in the run. |
| ForkHandshake.NeverStuck | ports/devel/qt6-base/dragonfly/patch-src_3rdparty_forkfd_forkfd__dragonfly.c:54-78 | Until both processes have left forkfd, one of them can go on by a call that succeeds, without interruption or outside help: the child closes its own write end before it waits for the end of the pipe. |
| ForkHandshake.RunsAreShort | ports/devel/qt6-base/dragonfly/patch-src_3rdparty_forkfd_forkfd__dragonfly.c:34-78 | Apart from interrupted calls no run is longer than seventeen steps. |
| ForkHandshake.HandedOver | ports/devel/qt6-base/dragonfly/patch-src_3rdparty_forkfd_forkfd__dragonfly.c:86-114 | The descriptor returned is one the wait routine can start from. |
| ForkHandshake.Kernel.SystemForkfd | ports/devel/qt6-base/dragonfly/patch-src_3rdparty_forkfd_forkfd__dragonfly.c:27-87 | The parent's code, with the child running on between any two of its calls, is a run of the protocol that ends as it returns. Its system flag is set exactly if neither kqueue nor pipe2 failed in that run; if it is and the call fails, errno is the one that fork or kevent gave when it failed, and no other call was refused; the flags asked for are set. |
| ForkHandshake.Kernel.WatchChild | ports/devel/qt6-base/dragonfly/patch-src_3rdparty_forkfd_forkfd__dragonfly.c:64-78 | Behind fork: registration first, then the write end; if the child cannot be watched the call fails with the errno that kevent gave, whatever the calls behind it did to errno. |
| ForkHandshake.Kernel.MakeChild | ports/devel/qt6-base/dragonfly/patch-src_3rdparty_forkfd_forkfd__dragonfly.c:44-87 | From fork on: success without a refused call, or failure with the errno of the one refused call. |
| ForkHandshake.Kernel.ForkFailed | ports/devel/qt6-base/dragonfly/patch-src_3rdparty_forkfd_forkfd__dragonfly.c:45-52 | Closes all three descriptors and restores errno. |
| ForkHandshake.Kernel.Abandon | ports/devel/qt6-base/dragonfly/patch-src_3rdparty_forkfd_forkfd__dragonfly.c:70-78 | Kills and reaps the child, closes the queue and restores errno. |
| ForkHandshake.Kernel.WaitForChild | ports/devel/qt6-base/dragonfly/patch-src_3rdparty_forkfd_forkfd__dragonfly.c:73-74 | Retries waitpid while it is interrupted, and reaps. |
| ForkWait.WaitsAreIdeal | ports/devel/qt6-base/dragonfly/patch-src_3rdparty_forkfd_forkfd__dragonfly.c:89-137 | Over any history of exits, waits and peeks, the queue with its one-shot events and the re-arming reports what an ideal child without any queue would: dead until reaped. |
| ForkWait.IdealExactlyIfSmooth | ports/devel/qt6-base/dragonfly/patch-src_3rdparty_forkfd_forkfd__dragonfly.c:89-137 | And this is so exactly if no reaping wait is interrupted in its sleep and nobody else reaps the child: otherwise a peek right behind shows the difference. |
| ForkWait.StepIsIdeal | ports/devel/qt6-base/dragonfly/patch-src_3rdparty_forkfd_forkfd__dragonfly.c:106-137 | Each step keeps exactly one pending event that names a dead child, and none otherwise, exactly if it is not one of these two. |
| ForkWait.InterruptedReapLoses | ports/devel/qt6-base/dragonfly/patch-src_3rdparty_forkfd_forkfd__dragonfly.c:107-136 | After a reaping wait interrupted in its sleep no later wait ever reports the child. |
| ForkWait.NothingBeforeExit | ports/devel/qt6-base/dragonfly/patch-src_3rdparty_forkfd_forkfd__dragonfly.c:95-113 | Before the exit a non-blocking wait says EWOULDBLOCK, and a blocking one ends only by a signal. |
| ForkWait.ReportedUntilReaped | ports/devel/qt6-base/dragonfly/patch-src_3rdparty_forkfd_forkfd__dragonfly.c:116-136 | From the exit on, behind any number of peeks, every undisturbed wait reports the child. |
| ForkWait.SameReport | ports/devel/qt6-base/dragonfly/patch-src_3rdparty_forkfd_forkfd__dragonfly.c:116-136 | In any history all waits that report a child report the same, and all but the last are peeks. |
| ForkWait.Descriptor.SystemForkfdWait | ports/devel/qt6-base/dragonfly/patch-src_3rdparty_forkfd_forkfd__dragonfly.c:89-137 | The routine does one wait of the model, behind the exit it may have slept for. Before the exit a non-blocking wait says EWOULDBLOCK and changes nothing; of a dead child an undisturbed wait reports the record, a peek keeping it and its event, a reap ending both. |
| ForkWait.Descriptor.Kevent | ports/devel/qt6-base/dragonfly/patch-src_3rdparty_forkfd_forkfd__dragonfly.c:106-113 | Takes the first event, sleeping for the exit if it may. |

## Left out

- Real input and output, libc and name resolution: replaced by streams, file contents as a map, and calls that may fail. Messages on stderr are reduced to an outcome.
- MakeIndex.SortPorts: does not model the array of ports doubling while lines are read; ports are collected in a sequence and copied into an array of the right size before sorting. An empty input prints nothing, as in the source.
- MakeIndex.OrderIndependent: does not cover which of several errors is reported first, because that does depend on the order; it assumes distinct directories, because equal ones are kept in an order heapsort does not promise. The runs themselves (MakeIndex.Run) need no such assumption.
- HeapSort.Sort: heapifyports and heapifypkgs, and the two extraction loops, are one generic algorithm over an order; their texts differ in nothing else.
- Recursion.ExpandSlot: the five pairs of count and list fields are addressed by a slot, where the source passes a pointer to the count field.
- Recursion.AddMissing: realloc always moves the block, so nothing is proved that relies on its staying in place; running out of memory is not modelled.
- Describe.MakeList: for an empty token the source reads the byte before an empty string; the model makes this an outcome of its own (EmptyName) and promises nothing beyond it.
- Base64.B64Enc: failure of malloc is a parameter; char is taken to be signed, as on amd64.
- Fetch.Client.MakeRequest: the text of a request is any string; reading proxies and credentials from the environment is not modelled, nor are time-outs other than as errors.
- Fetch.Client.Connect: each address may fail or yield a connection; socket options are not modelled.
- Receive.ReadLn: interrupted calls are finitely many per connection, so that loops terminate. BUFSIZ is 1024, as on DragonFly.
- Headers.ParseStatus: the source has no overflow guard here; the model's number is unbounded, so what an int would hold after ten or more digits is not said.
- Headers.HeaderField: case folding covers ASCII letters only.
- Server.DownloadsAreAnswers: answers with 1xx headers that announce a length, a coding or a connection, or with several data chunks, are excluded, because the code does not read them as sent (InterimHeaders.InterimExact, Wire.ChunkedExact say exactly when it does). Bodies ended by closing are shorter than OFF_MAX, and a server that ends them so closes cleanly only at their end.
- ForkHandshake.Kernel.SystemForkfd: covers the parent; the four calls of the child, its retry loop included, are steps of the protocol and not a method. waitpid is taken to fail only by interruption.
- MakeIndex.TranslateAll: takes the ports to be sorted by directory, as main leaves them; so do MakeIndex.TranslatePort and Resolve.TranslateList.
- ForkHandshake.ParentLeavesNothing: says nothing about the errno of a failed pipe2, which the source does not protect from the close behind it.
- ForkWait.Descriptor.CollectChild: waitid and the converted status of wait4 are taken to report the same record; convertStatusToForkfdInfo is not part of this model, nor is the resource usage.
- ForkWait.Descriptor.Kevent: once the child is reaped, a blocking call returns only by a signal; that it might sleep forever is not expressed.
- docs/synclog.py, the GDB register maps and note walkers, the hwloc bitmap conversions, the libdispatch, libepoll-shim, wrk and libvirt patches and all other patches: finite tables, or fragments of code that is not here.
