/** `FileCounter`: an i64 count kept in a file that is rewritten on every
    change. */
module Counter {
  import opened Optional
  import opened Int64
  import opened Decimal
  import opened Files
  import opened Keys

  /** The open file, the count, and whether each persist also syncs the
      file's data to disk. Syncing has no effect on the content, so the flag
      is only carried along. */
  datatype FileCounter = FileCounter(file: File, count: I64, dataSync: bool)

  /** The file holds exactly the rendering of the count. */
  predicate Persisted(c: FileCounter)
  {
    c.file.content == Render(c.count)
  }

  /** The capacity of `BufReader`'s buffer. */
  const ReadBufferCapacity: nat := 8192

  /** Where the file's cursor stands after `read_line` through a fresh
      `BufReader`: the reader refills its buffer a whole capacity at a time
      until the buffer holds the first newline or the file ends. Each
      refill is taken to fill the buffer, as reads from a regular file do. */
  function CursorAfterFirstLine(stored: seq<char>): (pos: nat)
    ensures |ReadLine(stored)| <= pos <= |stored|
    ensures pos < |ReadLine(stored)| + ReadBufferCapacity
    ensures pos == |stored| || pos % ReadBufferCapacity == 0
  {
    var fills := (|ReadLine(stored)| + ReadBufferCapacity - 1) / ReadBufferCapacity;
    if fills * ReadBufferCapacity < |stored| then fills * ReadBufferCapacity else |stored|
  }

  /** `persist`: seek to the start, truncate to zero length, write the
      decimal count. */
  function Persist(c: FileCounter): (r: FileCounter)
    ensures Persisted(r)
    ensures r.count == c.count && r.dataSync == c.dataSync
  {
    c.(file := Write(SetLen(Seek(c.file, 0), 0), Render(c.count)))
  }

  /** `increment`: `checked_add(1)`, keeping the count on overflow, then
      persist either way. */
  function Increment(c: FileCounter): (r: FileCounter)
    ensures c.count < MAX ==> r.count == c.count + 1
    ensures c.count == MAX ==> r.count == c.count
    ensures Persisted(r) && r.dataSync == c.dataSync
    ensures Persisted(c) && c.count == MAX ==> r.file.content == c.file.content
  {
    match CheckedAdd(c.count, 1)
    case None => Persist(c)
    case Some(v) => Persist(c.(count := v))
  }

  /** `decrement`: `checked_sub(1)`, keeping the count on underflow, then
      persist either way. */
  function Decrement(c: FileCounter): (r: FileCounter)
    ensures c.count > MIN ==> r.count == c.count - 1
    ensures c.count == MIN ==> r.count == c.count
    ensures Persisted(r) && r.dataSync == c.dataSync
    ensures Persisted(c) && c.count == MIN ==> r.file.content == c.file.content
  {
    match CheckedSub(c.count, 1)
    case None => Persist(c)
    case Some(v) => Persist(c.(count := v))
  }

  /** Decrementing from zero goes negative and the file shows it. */
  lemma DecrementFromZero(c: FileCounter)
    requires c.count == 0
    ensures Decrement(c).count == -1
    ensures Decrement(c).file.content == "-1"
  {
  }

  /** Below the upper limit, a decrement undoes an increment, in the count
      and in the file. */
  lemma DecrementUndoesIncrement(c: FileCounter)
    requires c.count < MAX
    ensures Decrement(Increment(c)).count == c.count
    ensures Decrement(Increment(c)).file.content == Render(c.count)
  {
  }

  /** Outcome of `FileCounter::new`, with the file's content on disk for
      the outcomes that end without a counter.
      - `Started`: the counter, and the input left after any confirmation.
      - `Refused`: the `InvalidData` error "File contained non-counter data".
      - `Exited`: `std::process::exit` from the confirmation's quit key.
      - `Prompting`: the input ran out while the confirmation was waiting.
      - `Failed`: the terminal could not be set up for the confirmation. */
  datatype Startup =
    | Started(counter: FileCounter, rest: seq<Event>)
    | Refused(disk: seq<char>)
    | Exited(status: int, disk: seq<char>)
    | Prompting(disk: seq<char>)
    | Failed(disk: seq<char>)

  /** `FileCounter::new`. `stored` is the file's content when it is opened
      (empty for a file that did not exist: it is created). `lineReadable`
      says whether `read_line` succeeds; it fails on a first line that is not
      UTF-8 and on read errors, and then the count is 0 without any prompt.
      `terminalOk` says whether the terminal calls succeed (raw mode, cursor,
      clearing the line); when they fail, the confirmation returns an error
      before reading a key. `keys` is the terminal input, which the
      confirmation reads from. */
  function New(stored: seq<char>, value: Option<I64>, dataSync: bool, lineReadable: bool, terminalOk: bool,
               keys: seq<Event>): (r: Startup)
    // an explicit value wins over anything in the file
    ensures value.Some? ==> r.Started? && r.counter.count == value.value && r.rest == keys
    // otherwise a first line that parses as an i64 once trailing whitespace is removed
    ensures value.None? && lineReadable && LoadedValue(stored).Some? ==>
              r.Started? && r.counter.count == LoadedValue(stored).value && r.rest == keys
    // otherwise 0, silently for an empty file or an unreadable first line
    ensures value.None? && (stored == [] || !lineReadable) ==> r.Started? && r.counter.count == 0 && r.rest == keys
    // unparseable non-empty content: the user's answer decides
    ensures value.None? && lineReadable && LoadedValue(stored).None? && stored != [] && !terminalOk ==>
              r == Failed(stored)
    ensures value.None? && lineReadable && LoadedValue(stored).None? && stored != [] && terminalOk ==>
              match UserOkWithOverwrite(keys)
              case Answered(true, rest) => r.Started? && r.counter.count == 0 && r.rest == rest
              case Answered(false, _) => r == Refused(stored)
              case ExitRequested(_) => r == Exited(1, stored)
              case Unanswered => r == Prompting(stored)
    // a started counter has rewritten the file; every other outcome left it alone
    ensures r.Started? ==> Persisted(r.counter) && r.counter.dataSync == dataSync
    ensures !r.Started? ==> r.disk == stored
  {
    var handle := File(stored, 0);
    if value.Some? then
      Started(Persist(FileCounter(handle, value.value, dataSync)), keys)
    else
      var afterRead := File(stored, CursorAfterFirstLine(stored));
      if !lineReadable then
        Started(Persist(FileCounter(afterRead, 0, dataSync)), keys)
      else
        var line := ReadLine(stored);
        match Parse(TrimEnd(line))
        case Some(n) => Started(Persist(FileCounter(afterRead, n, dataSync)), keys)
        case None =>
          if line == [] then
            Started(Persist(FileCounter(afterRead, 0, dataSync)), keys)
          else if !terminalOk then
            Failed(stored)
          else
            match UserOkWithOverwrite(keys)
            case Answered(ok, rest) =>
              if ok then Started(Persist(FileCounter(afterRead, 0, dataSync)), rest)
              else Refused(stored)
            case ExitRequested(_) => Exited(1, stored)
            case Unanswered => Prompting(stored)
  }

  /** A file holding a rendered count, with or without trailing whitespace or
      further lines, starts the counter at that count, asks nothing, and is
      rewritten to the bare rendering. */
  lemma StartFromRenderedFile(n: I64, tail: seq<char>, dataSync: bool, terminalOk: bool, keys: seq<Event>)
    requires AllWhitespace(ReadLine(tail))
    ensures New(Render(n) + tail, None, dataSync, true, terminalOk, keys).Started?
    ensures New(Render(n) + tail, None, dataSync, true, terminalOk, keys).counter.count == n
    ensures New(Render(n) + tail, None, dataSync, true, terminalOk, keys).rest == keys
    ensures New(Render(n) + tail, None, dataSync, true, terminalOk, keys).counter.file.content == Render(n)
  {
    LoadRenderRoundTrip(n, tail);
  }

  /** A file of a single newline is not empty, so it counts as non-counter
      data although it trims to nothing: the user is asked, and refusing
      fails the start, as does a terminal that cannot ask. */
  lemma NewlineOnlyFileAsks(dataSync: bool, keys: seq<Event>)
    ensures LoadedValue("\n").None?
    ensures New("\n", None, dataSync, true, true, keys) == Refused("\n") <==>
              UserOkWithOverwrite(keys).Answered? && !UserOkWithOverwrite(keys).ok
    ensures New("\n", None, dataSync, true, false, keys) == Failed("\n")
  {
  }
}
