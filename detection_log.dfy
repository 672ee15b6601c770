/**
 * The detection log (Logger.log_detection): the file holds a JSON array of entries (or
 * one JSON object per line); it is read, the new entry appended, and the whole list
 * written back. File access and JSON text are outside the model: the content of the file
 * is what parsing it yields, a list of entries or invalid JSON.
 */
module DetectionLog {

  datatype Status = Authorized | Unauthorized

  /** {'timestamp': ..., 'plate_number': ..., 'status': ...}; the timestamp is opaque text. */
  datatype Entry = Entry(timestamp: string, plateNumber: string, status: Status)

  /** What parsing the file's content yields; an empty file parses as no entries. */
  datatype LogContent = Entries(entries: seq<Entry>) | Invalid

  /** The list log_detection starts from: the parsed entries, or a fresh list after a JSON error. */
  function Recovered(content: LogContent): seq<Entry> {
    match content
    case Entries(es) => es
    case Invalid => []
  }

  /** The content after one successful log_detection call. */
  function AppendEntry(content: LogContent, entry: Entry): LogContent {
    Entries(Recovered(content) + [entry])
  }

  /** The content after a series of successful calls, in order. */
  function AppendAll(content: LogContent, es: seq<Entry>): LogContent
    decreases |es|
  {
    if es == [] then content else AppendAll(AppendEntry(content, es[0]), es[1..])
  }

  /** A valid log keeps all its entries, in order, and gains the new one at the end. */
  lemma AppendKeepsEntries(es: seq<Entry>, entry: Entry)
    ensures AppendEntry(Entries(es), entry) == Entries(es + [entry])
    ensures AppendEntry(Entries(es), entry).entries[..|es|] == es
  {
  }

  /** An invalid log is replaced by a one-entry list. */
  lemma AppendAfterInvalid(entry: Entry)
    ensures AppendEntry(Invalid, entry) == Entries([entry])
  {
  }

  /** Appending e1, e2, ... and reading back gives the old entries followed by e1, e2, ... */
  lemma {:induction false} AppendAllReadsBack(content: LogContent, es: seq<Entry>)
    ensures Recovered(AppendAll(content, es)) == Recovered(content) + es
    ensures es != [] ==> AppendAll(content, es).Entries?
    decreases |es|
  {
    if es != [] {
      AppendAllReadsBack(AppendEntry(content, es[0]), es[1..]);
      assert Recovered(content) + es == Recovered(content) + [es[0]] + es[1..];
    }
  }

  /** Starting from an empty or an invalid log, a series of appends reads back as exactly that series. */
  lemma FreshLogReadsBack(content: LogContent, es: seq<Entry>)
    requires content == Invalid || content == Entries([])
    requires es != []
    ensures AppendAll(content, es) == Entries(es)
  {
    AppendAllReadsBack(content, es);
  }

  class Logger {
    /** The log file, as parsing it yields. */
    var content: LogContent

    constructor(initial: LogContent)
      ensures content == initial
    {
      content := initial;
    }

    /**
     * log_detection. An exception while opening, reading or writing the file is printed and
     * swallowed; the model takes it as `ioFault` and then leaves the file as it was.
     */
    method LogDetection(plateText: string, status: Status, timestamp: string, ioFault: bool)
      modifies this
      ensures ioFault ==> content == old(content)
      ensures !ioFault ==> content == AppendEntry(old(content), Entry(timestamp, plateText, status))
    {
      var logEntry := Entry(timestamp, plateText, status);
      if ioFault {
        return;
      }
      var data: seq<Entry> := [];
      match content {
        case Entries(es) => data := es;
        case Invalid => data := [];
      }
      data := data + [logEntry];
      content := Entries(data);
    }
  }
}
