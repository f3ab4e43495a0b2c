/**
 * The sequential heart of the asynchronous logger in log/log.go.
 *
 * The Go logger hands entries from the calling goroutines to one worker
 * goroutine through a buffered channel. Here that channel is the `queue`
 * field, bounded by `capacity`; `Log` is the non-blocking send (enqueue or
 * drop with a warning), `ProcessNext` is one iteration of the worker's
 * receive-and-write loop, and `Shutdown` is the final drain. The clock and
 * `fmt.Sprint` are outside the model: an entry carries its timestamp already
 * formatted and its message parts already rendered. The output writer and
 * standard error are modelled as the sequences of lines written to them.
 */
module AsyncLog {

  // ---------------------------------------------------------------------------
  // Levels
  // ---------------------------------------------------------------------------

  /** Severity of an entry; `NoLevel` is Go's unexported `none`. */
  datatype Level = NoLevel | Debug | Info | Error

  /** The numeric value of the Go constant (`iota` order). */
  function Rank(l: Level): nat
  {
    match l
    case NoLevel => 0
    case Debug => 1
    case Info => 2
    case Error => 3
  }

  /** `a >= b` on levels. */
  predicate AtLeast(a: Level, b: Level)
  {
    Rank(a) >= Rank(b)
  }

  /** The levels are ordered none < Debug < Info < Error, and the order is
      total: distinct levels are strictly comparable. */
  lemma LevelOrder(a: Level, b: Level)
    ensures !AtLeast(NoLevel, Debug) && !AtLeast(Debug, Info) && !AtLeast(Info, Error)
    ensures AtLeast(a, b) || AtLeast(b, a)
    ensures AtLeast(a, b) && AtLeast(b, a) ==> a == b
  {
  }

  /** ASCII upper-case letters mapped to lower case, everything else kept. */
  function LowerChar(c: char): char
  {
    if 'A' <= c <= 'Z' then (c as int + 32) as char else c
  }

  function LowerAscii(s: string): (r: string)
    ensures |r| == |s| && forall i :: 0 <= i < |s| ==> r[i] == LowerChar(s[i])
  {
    seq(|s|, i requires 0 <= i < |s| => LowerChar(s[i]))
  }

  /** `ParseString`: "debug", "info" and "error" in any letter case name their
      level; every other string means Info. */
  function ParseString(level: string): (r: Level)
    ensures r != NoLevel
    ensures r == Debug <==> LowerAscii(level) == "debug"
    ensures r == Error <==> LowerAscii(level) == "error"
    ensures r == Info <==> LowerAscii(level) != "debug" && LowerAscii(level) != "error"
  {
    match LowerAscii(level)
    case "debug" => Debug
    case "info" => Info
    case "error" => Error
    case _ => Info
  }

  /** Two strings that differ only in letter case parse to the same level. */
  lemma ParseStringIgnoresCase(s: string, t: string)
    requires |s| == |t| && forall i :: 0 <= i < |s| ==> LowerChar(s[i]) == LowerChar(t[i])
    ensures ParseString(s) == ParseString(t)
  {
    assert LowerAscii(s) == LowerAscii(t);
  }

  // ---------------------------------------------------------------------------
  // Entries and the layout of an output line
  // ---------------------------------------------------------------------------

  /** One log call: its timestamp (already formatted as "2006/01/02 15:04:05"
      in UTC), level, label and rendered message parts. */
  datatype Entry = Entry(time: string, level: Level, labelText: string, msg: seq<string>)

  /** `levelStrings`: the plain level tags; the slot for `none` is empty. */
  function LevelString(l: Level): (r: string)
    ensures r == "" <==> l == NoLevel
    ensures l != NoLevel ==> |r| == 5 && r[0] == '[' && r[4] == ']'
  {
    match l
    case NoLevel => ""
    case Debug => "[DBG]"
    case Info => "[INF]"
    case Error => "[ERR]"
  }

  /** `levelColors`: the tags with the level name in an ANSI colour (yellow,
      green, red) followed by the reset sequence. */
  function LevelColor(l: Level): (r: string)
    ensures r == "" <==> l == NoLevel
    ensures l != NoLevel ==> |r| == 14 && r[0] == '[' && r[13] == ']' && r[6..9] == LevelString(l)[1..4]
  {
    match l
    case NoLevel => ""
    case Debug => "[\U{1B}[33mDBG\U{1B}[0m]"
    case Info => "[\U{1B}[32mINF\U{1B}[0m]"
    case Error => "[\U{1B}[31mERR\U{1B}[0m]"
  }

  /** What `unicode.IsSpace` accepts. */
  predicate IsSpace(c: char)
  {
    || c == ' ' || c == '\t' || c == '\n' || c == '\U{0B}' || c == '\U{0C}' || c == '\r'
    || c == '\U{85}' || c == '\U{A0}' || c == '\U{1680}'
    || ('\U{2000}' <= c <= '\U{200A}')
    || c == '\U{2028}' || c == '\U{2029}' || c == '\U{202F}' || c == '\U{205F}' || c == '\U{3000}'
  }

  /** `s` without its leading white space. */
  function TrimLeft(s: string): string
  {
    if s != [] && IsSpace(s[0]) then TrimLeft(s[1..]) else s
  }

  /** `s` without its trailing white space. */
  function TrimRight(s: string): string
  {
    if s != [] && IsSpace(s[|s| - 1]) then TrimRight(s[..|s| - 1]) else s
  }

  /** `TrimLeft` removes exactly the longest prefix of white space: what it
      returns is a suffix of `s`, everything cut off is white space, and the
      result does not start with white space. */
  lemma {:induction false} TrimLeftProperties(s: string)
    ensures var r := TrimLeft(s);
      && |r| <= |s| && r == s[|s| - |r|..]
      && (forall i :: 0 <= i < |s| - |r| ==> IsSpace(s[i]))
      && (r != [] ==> !IsSpace(r[0]))
  {
    if s != [] && IsSpace(s[0]) {
      var t := s[1..];
      TrimLeftProperties(t);
      var r := TrimLeft(t);
      assert t[|t| - |r|..] == s[|s| - |r|..];
      forall i | 0 < i < |s| - |r| ensures IsSpace(s[i]) {
        assert s[i] == t[i - 1];
      }
    }
  }

  /** `TrimRight` removes exactly the longest suffix of white space: what it
      returns is a prefix of `s`, everything cut off is white space, and the
      result does not end with white space. */
  lemma {:induction false} TrimRightProperties(s: string)
    ensures var r := TrimRight(s);
      && |r| <= |s| && r == s[..|r|]
      && (forall i :: |r| <= i < |s| ==> IsSpace(s[i]))
      && (r != [] ==> !IsSpace(r[|r| - 1]))
  {
    if s != [] && IsSpace(s[|s| - 1]) {
      var t := s[..|s| - 1];
      TrimRightProperties(t);
      var r := TrimRight(t);
      assert t[..|r|] == s[..|r|];
      forall i | |r| <= i < |s| - 1 ensures IsSpace(s[i]) {
        assert s[i] == t[i];
      }
    }
  }

  /** `strings.TrimSpace`. */
  function TrimSpace(s: string): string
  {
    TrimRight(TrimLeft(s))
  }

  /** `parts` with `sep` between neighbours. */
  function Join(parts: seq<string>, sep: string): string
  {
    if |parts| == 0 then ""
    else if |parts| == 1 then parts[0]
    else Join(parts[..|parts| - 1], sep) + sep + parts[|parts| - 1]
  }

  /** The level tag `write` puts in a line. */
  function Tag(l: Level, color: bool): string
  {
    if color then LevelColor(l) else LevelString(l)
  }

  /** What `write` puts in its builder before the message parts. */
  function Head(e: Entry, color: bool): string
  {
    e.time + " " + Tag(e.level, color) + " [" + e.labelText + "] "
  }

  /** Every message part followed by one space. */
  function Parts(msg: seq<string>): string
  {
    if msg == [] then "" else Parts(msg[..|msg| - 1]) + msg[|msg| - 1] + " "
  }

  /** The line `write` emits for an entry: the builder's contents with the
      surrounding white space trimmed, then a newline. */
  function Line(e: Entry, color: bool): (r: string)
    ensures |r| >= 1 && r[|r| - 1] == '\n'
    ensures |r| >= 2 ==> !IsSpace(r[0]) && !IsSpace(r[|r| - 2])
  {
    var raw := Head(e, color) + Parts(e.msg);
    TrimLeftProperties(raw);
    TrimRightProperties(TrimLeft(raw));
    TrimSpace(raw) + "\n"
  }

  /** The lines for a sequence of entries, in order. */
  function Lines(es: seq<Entry>, color: bool): (r: seq<string>)
    ensures |r| == |es|
  {
    seq(|es|, i requires 0 <= i < |es| => Line(es[i], color))
  }

  /** The lines of a non-empty queue are the line of its head followed by the
      lines of the rest. */
  lemma LinesCons(es: seq<Entry>, color: bool)
    requires es != []
    ensures Lines(es, color) == [Line(es[0], color)] + Lines(es[1..], color)
  {
  }

  /** Writing the head of the queue keeps "written lines, then the lines of
      the queued entries" unchanged. */
  lemma DrainStep(written: seq<string>, queue: seq<Entry>, color: bool)
    requires queue != []
    ensures (written + [Line(queue[0], color)]) + Lines(queue[1..], color) == written + Lines(queue, color)
  {
    LinesCons(queue, color);
  }

  /** One more part adds that part and a space. */
  lemma PartsSnoc(msg: seq<string>, i: nat)
    requires i < |msg|
    ensures Parts(msg[..i + 1]) == Parts(msg[..i]) + msg[i] + " "
  {
    assert msg[..i + 1][..i] == msg[..i];
  }

  /** The parts-with-trailing-spaces are the space-joined parts plus one space. */
  lemma {:induction false} PartsIsJoin(msg: seq<string>)
    requires msg != []
    ensures Parts(msg) == Join(msg, " ") + " "
  {
    if |msg| > 1 {
      var init := msg[..|msg| - 1];
      PartsIsJoin(init);
    } else {
      assert msg[..0] == [];
    }
  }

  /** Trimming a string that ends in one space after a non-space character
      removes exactly that space. */
  lemma TrimRightOneSpace(x: string)
    requires x != [] && !IsSpace(x[|x| - 1])
    ensures TrimRight(x + " ") == x
  {
    assert (x + " ")[..|x|] == x;
  }

  /** A string that starts and ends with non-space characters, followed by one
      space, trims back to itself. */
  lemma TrimSpaceOneSpace(x: string)
    requires x != [] && !IsSpace(x[0]) && !IsSpace(x[|x| - 1])
    ensures TrimSpace(x + " ") == x
  {
    assert (x + " ")[0] == x[0];
    TrimRightOneSpace(x);
  }

  /** The layout of a line. When the timestamp starts with a non-space
      character and the last message part ends with one, a line is: timestamp,
      one space, the level tag, " [", the label, "]", then (if there are
      parts) one space and the parts joined by single spaces, then a newline. */
  lemma LineLayout(e: Entry, color: bool)
    requires e.time != [] && !IsSpace(e.time[0])
    requires e.msg != [] ==> var last := e.msg[|e.msg| - 1]; last != [] && !IsSpace(last[|last| - 1])
    ensures Line(e, color) ==
      e.time + " " + Tag(e.level, color) + " [" + e.labelText + "]"
      + (if e.msg == [] then "" else " " + Join(e.msg, " ")) + "\n"
  {
    var prefix := e.time + " " + Tag(e.level, color) + " [" + e.labelText + "]";
    var body := prefix + (if e.msg == [] then "" else " " + Join(e.msg, " "));
    assert Head(e, color) == prefix + " ";
    if e.msg == [] {
      assert Head(e, color) + Parts(e.msg) == body + " ";
      assert body[|body| - 1] == ']';
    } else {
      var j := Join(e.msg, " ");
      PartsIsJoin(e.msg);
      assert Head(e, color) + Parts(e.msg) == body + " " by {
        assert body == prefix + " " + j;
      }
      var last := e.msg[|e.msg| - 1];
      JoinEndsWith(e.msg, " ");
      assert body[|body| - 1] == j[|j| - 1] == last[|last| - 1];
    }
    assert body[0] == e.time[0];
    TrimSpaceOneSpace(body);
  }

  /** A join ends with the end of its last part, when that part is non-empty. */
  lemma JoinEndsWith(parts: seq<string>, sep: string)
    requires parts != [] && parts[|parts| - 1] != []
    ensures var j, last := Join(parts, sep), parts[|parts| - 1];
      |j| >= |last| && j[|j| - 1] == last[|last| - 1]
  {
  }

  /** The fixed start of the drop warning. */
  const DropPrefix := "Logger buffer is full, " + "dropping log message: ["

  /** A character that is neither in the separator nor in any part is not in
      their join. */
  lemma {:induction false} JoinAvoids(parts: seq<string>, sep: string, c: char)
    ensures c !in sep && (forall i :: 0 <= i < |parts| ==> c !in parts[i]) ==> c !in Join(parts, sep)
  {
    if |parts| > 1 {
      JoinAvoids(parts[..|parts| - 1], sep, c);
    }
  }

  /** The warning written to standard error when an entry is dropped; Go's
      `%v` shows the message parts space-separated inside brackets. */
  function DropWarning(msg: seq<string>): (r: string)
    ensures |r| == |DropPrefix| + |Join(msg, " ")| + 2
    ensures r[..|DropPrefix|] == DropPrefix
    ensures r[|r| - 2] == ']' && r[|r| - 1] == '\n'
  {
    DropPrefix + Join(msg, " ") + "]\n"
  }

  /** The drop warning is a single line, ended by its newline, whenever no
      message part holds a newline. */
  /** The fixed start of the drop warning holds no newline. */
  lemma DropPrefixOneLine()
    ensures '\n' !in DropPrefix
  {
    assert '\n' !in "Logger buffer is full, ";
    assert '\n' !in "dropping log message: [";
  }

  /** The drop warning is a single line, ended by its newline, whenever no
      message part holds a newline. */
  lemma DropWarningOneLine(msg: seq<string>)
    requires forall i :: 0 <= i < |msg| ==> '\n' !in msg[i]
    ensures var r := DropWarning(msg); '\n' !in r[..|r| - 1]
  {
    var body := DropPrefix + Join(msg, " ") + "]";
    DropPrefixOneLine();
    JoinAvoids(msg, " ", '\n');
    assert DropWarning(msg) == body + ['\n'];
    assert (body + ['\n'])[..|body|] == body;
  }

  // ---------------------------------------------------------------------------
  // Configuration
  // ---------------------------------------------------------------------------

  datatype Option<T> = None | Some(value: T)

  /** Where lines go: standard output or a writer given in the options. */
  datatype Sink = Stdout | Writer(id: nat)

  /** `Opts`; `output` is `None` for a nil writer. */
  datatype Opts = Opts(level: string, color: bool, bufferLen: int, output: Option<Sink>)

  const DefaultBufferLen: nat := 100

  // ---------------------------------------------------------------------------
  // The logger
  // ---------------------------------------------------------------------------

  class Logger {
    var level: Level
    var color: bool
    var output: Sink
    /** The capacity of the entry channel. */
    var capacity: nat
    /** The entries buffered in the channel, oldest first. */
    var queue: seq<Entry>
    /** The line builder (`sb`), empty between writes. */
    var sb: string
    /** The lines written to `output`, in order. */
    var written: seq<string>
    /** The lines written to standard error, in order. */
    var warnings: seq<string>
    /** Whether `Shutdown` has run. */
    var closed: bool

    ghost predicate Valid()
      reads this
    {
      && 0 < capacity
      && |queue| <= capacity
      && sb == ""
      && level != NoLevel
      && (closed ==> queue == [])
    }

    /** `NewLogger`. A nil `opts` gives level Info, no colour, capacity 100 and
        standard output; a non-empty level string is parsed, a non-zero buffer
        length replaces the capacity and a non-nil writer replaces the output.
        A negative buffer length makes Go's `make` panic, so it is excluded. */
    constructor (opts: Option<Opts>)
      requires opts.Some? ==> opts.value.bufferLen >= 0
      ensures Valid()
      ensures level == if opts.Some? && opts.value.level != "" then ParseString(opts.value.level) else Level.Info
      ensures color == (opts.Some? && opts.value.color)
      ensures capacity == if opts.Some? && opts.value.bufferLen != 0 then opts.value.bufferLen else DefaultBufferLen
      ensures output == if opts.Some? && opts.value.output.Some? then opts.value.output.value else Stdout
      ensures queue == [] && written == [] && warnings == [] && !closed
    {
      level := Level.Info;
      color := false;
      output := Stdout;
      capacity := DefaultBufferLen;
      queue := [];
      sb := "";
      written := [];
      warnings := [];
      closed := false;
      if opts.Some? {
        var o := opts.value;
        if o.level != "" {
          level := ParseString(o.level);
        }
        color := o.color;
        if o.bufferLen != 0 {
          capacity := o.bufferLen;
        }
        if o.output.Some? {
          output := o.output.value;
        }
      }
    }

    /** What one `log` call does: an entry below the configured level is
        discarded; otherwise it joins the back of the queue if there is room,
        and if the queue is full it is dropped with exactly one warning. The
        configuration and the written output do not change. */
    twostate predicate Logged(lvl: Level, labelText: string, time: string, msg: seq<string>)
      reads this
    {
      && level == old(level) && color == old(color) && output == old(output)
      && capacity == old(capacity) && written == old(written) && closed == old(closed)
      && (!AtLeast(lvl, old(level)) ==>
            queue == old(queue) && warnings == old(warnings))
      && (AtLeast(lvl, old(level)) && |old(queue)| < old(capacity) ==>
            queue == old(queue) + [Entry(time, lvl, labelText, msg)] && warnings == old(warnings))
      && (AtLeast(lvl, old(level)) && |old(queue)| >= old(capacity) ==>
            queue == old(queue) && warnings == old(warnings) + [DropWarning(msg)])
    }

    /** `log`: the level check, then the non-blocking send. After `Shutdown`
        the channel is closed and a send on it panics in Go, so only entries
        that the level check discards may still be logged then. */
    method Log(lvl: Level, labelText: string, time: string, msg: seq<string>)
      requires Valid() && (closed ==> !AtLeast(lvl, level))
      modifies this
      ensures Valid()
      ensures Logged(lvl, labelText, time, msg)
    {
      var levelOK := AtLeast(lvl, level);
      if !levelOK {
        return;
      }
      if |queue| < capacity {
        queue := queue + [Entry(time, lvl, labelText, msg)];
      } else {
        warnings := warnings + [DropWarning(msg)];
      }
    }

    method Debug(labelText: string, time: string, msg: seq<string>)
      requires Valid() && (closed ==> !AtLeast(Level.Debug, level))
      modifies this
      ensures Valid()
      ensures Logged(Level.Debug, labelText, time, msg)
    {
      Log(Level.Debug, labelText, time, msg);
    }

    method Info(labelText: string, time: string, msg: seq<string>)
      requires Valid() && (closed ==> !AtLeast(Level.Info, level))
      modifies this
      ensures Valid()
      ensures Logged(Level.Info, labelText, time, msg)
    {
      Log(Level.Info, labelText, time, msg);
    }

    method Error(labelText: string, time: string, msg: seq<string>)
      requires Valid() && (closed ==> !AtLeast(Level.Error, level))
      modifies this
      ensures Valid()
      ensures Logged(Level.Error, labelText, time, msg)
    {
      Log(Level.Error, labelText, time, msg);
    }

    /** `write`: builds the line piece by piece in `sb`, emits it trimmed and
        newline-terminated, and resets the builder. */
    method Write(entry: Entry)
      requires sb == ""
      modifies this`sb, this`written
      ensures sb == ""
      ensures written == old(written) + [Line(entry, color)]
    {
      WriteHead(entry);
      WriteParts(entry.msg);
      written := written + [TrimSpace(sb) + "\n"];
      sb := "";
    }

    /** The loop of `write`: each message part followed by one space. */
    method WriteParts(msg: seq<string>)
      modifies this`sb
      ensures sb == old(sb) + Parts(msg)
    {
      ghost var start := sb;
      assert Parts(msg[..0]) == [];
      for i := 0 to |msg|
        invariant sb == start + Parts(msg[..i])
      {
        PartsSnoc(msg, i);
        sb := sb + msg[i];
        sb := sb + " ";
      }
      assert msg[..|msg|] == msg;
    }

    /** The first part of `write`: timestamp, level tag and label. */
    method WriteHead(entry: Entry)
      requires sb == ""
      modifies this`sb
      ensures sb == Head(entry, color)
    {
      sb := sb + entry.time;
      sb := sb + " ";
      if color {
        sb := sb + LevelColor(entry.level);
      } else {
        sb := sb + LevelString(entry.level);
      }
      sb := sb + " [";
      sb := sb + entry.labelText;
      sb := sb + "] ";
    }

    /** One iteration of `processLogs` receiving from the channel: the oldest
        queued entry, if any, is taken off the queue and written. */
    method ProcessNext() returns (received: bool)
      requires Valid()
      modifies this`queue, this`sb, this`written
      ensures Valid()
      ensures received <==> old(queue) != []
      ensures received ==> queue == old(queue)[1..] && written == old(written) + [Line(old(queue)[0], color)]
      ensures !received ==> queue == old(queue) && written == old(written)
    {
      if queue == [] {
        return false;
      }
      var entry := queue[0];
      queue := queue[1..];
      Write(entry);
      return true;
    }

    /** `Shutdown`: the worker writes every entry still queued, oldest first,
        and stops; afterwards the logger accepts no more calls. */
    method Shutdown()
      requires Valid() && !closed
      modifies this`queue, this`sb, this`written, this`closed
      ensures Valid() && closed && queue == []
      ensures written == old(written) + Lines(old(queue), color)
    {
      while queue != []
        invariant Valid()
        invariant written + Lines(queue, color) == old(written) + Lines(old(queue), color)
        decreases |queue|
      {
        ghost var q, w := queue, written;
        var received := ProcessNext();
        DrainStep(w, q, color);
      }
      closed := true;
    }
  }
}
