/** The log stream of one thread: records written by a child process and read back by its parent. */
module LogRecords {

  type Byte = x: int | 0 <= x < 256

  datatype LogType = UserMessages | Preformatted | UsedKnobValue | SkipMessages

  function TypeNumber(t: LogType): nat {
    match t
    case UserMessages => 0
    case Preformatted => 1
    case UsedKnobValue => 2
    case SkipMessages => 3
  }

  /** message_code: the type, counted from one, above the low four bits of the level. */
  function MessageCode(t: LogType, level: int): Byte {
    (TypeNumber(t) + 1) * 16 + level % 16
  }

  /** log_type_from_code, for the codes that message_code gives. */
  function TypeFromCode(code: Byte): LogType
    requires 16 <= code < 80
  {
    var n := code / 16 - 1;
    if n == 0 then UserMessages else if n == 1 then Preformatted else if n == 2 then UsedKnobValue else SkipMessages
  }

  function LevelFromCode(code: Byte): nat {
    code % 16
  }

  /** A code is never zero and gives back the type; it gives back the level if that has four bits. */
  lemma CodeRoundTrip(t: LogType, level: int)
    ensures MessageCode(t, level) != 0 && 16 <= MessageCode(t, level) < 80
    ensures TypeFromCode(MessageCode(t, level)) == t
    ensures LevelFromCode(MessageCode(t, level)) == level <==> 0 <= level < 16
  {
  }

  datatype Record = Record(kind: LogType, level: int, body: seq<Byte>)

  /** What the writers in the framework promise: no NUL in a body, a level of four bits. */
  predicate RecordOk(r: Record) {
    0 <= r.level < 16 && 0 !in r.body
  }

  predicate RecordsOk(rs: seq<Record>) {
    forall i :: 0 <= i < |rs| ==> RecordOk(rs[i])
  }

  function Encode(r: Record): seq<Byte> {
    [MessageCode(r.kind, r.level)] + r.body + [0]
  }

  function Stream(rs: seq<Record>): seq<Byte> {
    if rs == [] then [] else Encode(rs[0]) + Stream(rs[1..])
  }

  lemma {:induction false} StreamPush(rs: seq<Record>, r: Record)
    ensures Stream(rs + [r]) == Stream(rs) + Encode(r)
    decreases |rs|
  {
    if rs == [] {
      assert ([r])[1..] == [];
      assert rs + [r] == [r];
    } else {
      assert (rs + [r])[1..] == rs[1..] + [r];
      StreamPush(rs[1..], r);
    }
  }

  /** How many records are wholly within the first `len` bytes. */
  function Whole(rs: seq<Record>, len: nat): (n: nat)
    ensures n <= |rs|
  {
    if rs == [] || len < |Encode(rs[0])| then 0 else 1 + Whole(rs[1..], len - |Encode(rs[0])|)
  }

  /** The records that a reader of the first `len` bytes should see. */
  function Readable(rs: seq<Record>, len: nat): seq<Record> {
    rs[..Whole(rs, len)]
  }

  lemma ReadableStep(rs: seq<Record>, len: nat)
    requires rs != [] && len >= |Encode(rs[0])|
    ensures Readable(rs, len) == [rs[0]] + Readable(rs[1..], len - |Encode(rs[0])|)
  {
  }

  /** When all bytes are there, all records are. */
  lemma {:induction false} AllWhole(rs: seq<Record>)
    ensures Whole(rs, |Stream(rs)|) == |rs|
    decreases |rs|
  {
    if rs != [] { AllWhole(rs[1..]); }
  }

  class LogFile {
    var bytes: seq<Byte>

    constructor ()
      ensures bytes == []
    {
      bytes := [];
    }

    /** log_message_for_thread */
    method Log(kind: LogType, level: int, body: seq<Byte>, ghost written: seq<Record>)
      requires bytes == Stream(written)
      modifies this
      ensures bytes == Stream(written + [Record(kind, level, body)])
    {
      bytes := bytes + [MessageCode(kind, level)] + body + [0];
      StreamPush(written, Record(kind, level, body));
    }
  }

  // ---------------------------------------------------------------------------------------------
  // Reading
  // ---------------------------------------------------------------------------------------------

  /** memchr for a NUL: its place, or the length if there is none. */
  method FindNul(buffer: seq<Byte>, from: nat) returns (i: nat)
    requires from <= |buffer|
    ensures from <= i <= |buffer| && 0 !in buffer[from..i]
    ensures i < |buffer| ==> buffer[i] == 0
  {
    i := from;
    while i < |buffer| && buffer[i] != 0
      invariant from <= i <= |buffer| && 0 !in buffer[from..i]
    {
      assert buffer[from..i + 1] == buffer[from..i] + [buffer[i]];
      i := i + 1;
    }
  }

  /** What is left of the stream when a reader is at `ptr` and has the records of `rest` before it. */
  ghost predicate At(buffer: seq<Byte>, ptr: nat, rest: seq<Record>) {
    ptr <= |buffer| && RecordsOk(rest) && buffer[ptr..] <= Stream(rest)
  }

  /** A record that is not wholly there has no NUL in what is there. */
  lemma NoNulLeft(buffer: seq<Byte>, ptr: nat, rest: seq<Record>)
    requires At(buffer, ptr, rest) && Whole(rest, |buffer| - ptr) == 0
    ensures 0 !in buffer[ptr..]
  {
    if rest != [] {
      var e := Encode(rest[0]);
      assert buffer[ptr..] <= e[..|e| - 1] by { assert Stream(rest)[..|e|] == e; }
      assert e[..|e| - 1] == [e[0]] + rest[0].body;
    }
  }

  /** A record that is there ends with the next NUL. */
  lemma RecordHere(buffer: seq<Byte>, ptr: nat, rest: seq<Record>)
    requires At(buffer, ptr, rest) && Whole(rest, |buffer| - ptr) > 0
    ensures var end := ptr + |Encode(rest[0])| - 1;
            && ptr < end < |buffer| && buffer[end] == 0 && 0 !in buffer[ptr..end]
            && buffer[ptr] == MessageCode(rest[0].kind, rest[0].level) && buffer[ptr + 1..end] == rest[0].body
            && At(buffer, end + 1, rest[1..])
  {
    var e, tail := Encode(rest[0]), buffer[ptr..];
    assert tail[..|e|] == e by { assert Stream(rest)[..|e|] == e; }
    assert forall i :: 0 <= i < |e| ==> buffer[ptr + i] == e[i];
    assert buffer[ptr..ptr + |e| - 1] == [e[0]] + rest[0].body;
    assert buffer[ptr + 1..ptr + |e| - 1] == rest[0].body;
    assert buffer[ptr + |e|..] == tail[|e|..];
    assert Stream(rest)[|e|..] == Stream(rest[1..]);
  }

  lemma FirstNul(buffer: seq<Byte>, ptr: nat, i: nat, j: nat)
    requires ptr <= i <= |buffer| && 0 !in buffer[ptr..i] && (i < |buffer| ==> buffer[i] == 0)
    requires ptr <= j <= |buffer| && 0 !in buffer[ptr..j] && (j < |buffer| ==> buffer[j] == 0)
    ensures i == j
  {
    assert forall k :: ptr <= k < i ==> buffer[k] == buffer[ptr..i][k - ptr];
    assert forall k :: ptr <= k < j ==> buffer[k] == buffer[ptr..j][k - ptr];
  }

  /** The end of the record at `ptr`, if it is all there. */
  method NextRecord(buffer: seq<Byte>, ptr: nat, ghost rest: seq<Record>) returns (delim: nat)
    requires At(buffer, ptr, rest)
    ensures delim <= |buffer| && (delim == |buffer| ==> Readable(rest, |buffer| - ptr) == [])
    ensures delim < |buffer| ==>
              && rest != [] && Readable(rest, |buffer| - ptr) == [rest[0]] + Readable(rest[1..], |buffer| - (delim + 1))
              && ptr < delim
              && 16 <= buffer[ptr] < 80 && TypeFromCode(buffer[ptr]) == rest[0].kind && LevelFromCode(buffer[ptr]) == rest[0].level
              && buffer[ptr + 1..delim] == rest[0].body
              && At(buffer, delim + 1, rest[1..])
  {
    delim := FindNul(buffer, ptr);
    if Whole(rest, |buffer| - ptr) == 0 {
      NoNulLeft(buffer, ptr, rest);
      assert buffer[ptr..|buffer|] == buffer[ptr..];
      FirstNul(buffer, ptr, delim, |buffer|);
    } else {
      RecordHere(buffer, ptr, rest);
      FirstNul(buffer, ptr, delim, ptr + |Encode(rest[0])| - 1);
      ReadableStep(rest, |buffer| - ptr);
      CodeRoundTrip(rest[0].kind, rest[0].level);
    }
  }

  /** Reads back the records of any part of a stream from its start. */
  method ReadRecords(buffer: seq<Byte>, ghost rs: seq<Record>) returns (records: seq<Record>)
    requires RecordsOk(rs) && buffer <= Stream(rs)
    ensures records == Readable(rs, |buffer|)
  {
    records := [];
    ghost var rest := rs;
    var ptr := 0;
    assert buffer[0..] == buffer;
    while ptr < |buffer|
      invariant At(buffer, ptr, rest)
      invariant records + Readable(rest, |buffer| - ptr) == Readable(rs, |buffer|)
      decreases |buffer| - ptr
    {
      var delim := NextRecord(buffer, ptr, rest);
      if delim == |buffer| {
        return;
      }
      var code := buffer[ptr];
      records := records + [Record(TypeFromCode(code), LevelFromCode(code), buffer[ptr + 1..delim])];
      ptr := delim + 1;
      rest := rest[1..];
    }
  }

  // ---------------------------------------------------------------------------------------------
  // What the readers in the loggers do with the records
  // ---------------------------------------------------------------------------------------------

  /** The body of the first skip message, or nothing. */
  function FirstSkip(rs: seq<Record>): seq<Byte> {
    if rs == [] then [] else if rs[0].kind.SkipMessages? then rs[0].body else FirstSkip(rs[1..])
  }

  /** get_skip_message */
  method GetSkipMessage(buffer: seq<Byte>, ghost rs: seq<Record>) returns (message: seq<Byte>)
    requires RecordsOk(rs) && buffer <= Stream(rs)
    ensures message == FirstSkip(Readable(rs, |buffer|))
  {
    ghost var rest := rs;
    var ptr := 0;
    assert buffer[0..] == buffer;
    while ptr < |buffer|
      invariant At(buffer, ptr, rest)
      invariant FirstSkip(Readable(rest, |buffer| - ptr)) == FirstSkip(Readable(rs, |buffer|))
      decreases |buffer| - ptr
    {
      var delim := NextRecord(buffer, ptr, rest);
      if delim == |buffer| {
        return [];
      }
      FirstSkipStep(rest[0], Readable(rest[1..], |buffer| - (delim + 1)));
      if TypeFromCode(buffer[ptr]).SkipMessages? {
        return buffer[ptr + 1..delim];
      }
      ptr := delim + 1;
      rest := rest[1..];
    }
    return [];
  }

  lemma FirstSkipStep(r: Record, rest: seq<Record>)
    ensures FirstSkip([r] + rest) == if r.kind.SkipMessages? then r.body else FirstSkip(rest)
  {
    assert ([r] + rest)[1..] == rest;
  }

  const INT_MAX := 0x7fff_ffff

  /** Which records a logger handles: those up to the level wanted, and in YAML not the empty ones. */
  ghost predicate Handled(r: Record, level: int, yaml: bool) {
    r.level <= level && !r.kind.UsedKnobValue? && (yaml ==> r.body != [])
  }

  /** The skip message that is already in the result line is handled but not printed again. */
  ghost predicate Shown(r: Record, skipInMainThread: bool) {
    !(r.kind.SkipMessages? && skipInMainThread)
  }

  ghost function Printed(rs: seq<Record>, level: int, yaml: bool, skipInMainThread: bool): seq<Record> {
    if rs == [] then []
    else
      var r := rs[|rs| - 1];
      Printed(rs[..|rs| - 1], level, yaml, skipInMainThread)
      + if Handled(r, level, yaml) && Shown(r, skipInMainThread) then [r] else []
  }

  /** Which records are printed: in order, those up to the level wanted that are not about options of the
      test, nor empty ones in YAML, nor a skip message that is already in the result line. */
  lemma {:induction false} PrintedMeans(rs: seq<Record>, level: int, yaml: bool, skipInMainThread: bool, r: Record)
    ensures r in Printed(rs, level, yaml, skipInMainThread) <==>
              && r in rs && r.level <= level && (yaml ==> r.body != [])
              && (r.kind.UserMessages? || r.kind.Preformatted? || (r.kind.SkipMessages? && !skipInMainThread))
    decreases |rs|
  {
    if rs != [] {
      var m := |rs| - 1;
      PrintedMeans(rs[..m], level, yaml, skipInMainThread, r);
      assert rs == rs[..m] + [rs[m]];
    }
  }

  /** The lowest level among the records handled. */
  ghost predicate IsLowest(rs: seq<Record>, level: int, yaml: bool, lowest: int) {
    && (forall i :: 0 <= i < |rs| && Handled(rs[i], level, yaml) ==> lowest <= rs[i].level)
    && (lowest == INT_MAX || exists i :: 0 <= i < |rs| && Handled(rs[i], level, yaml) && rs[i].level == lowest)
  }

  /** print_one_thread_messages of the YAML logger, and of the others. */
  method PrintThreadMessages(buffer: seq<Byte>, level: int, yaml: bool, skipInMainThread: bool, ghost rs: seq<Record>)
    returns (printed: seq<Record>, lowest: int)
    requires RecordsOk(rs) && buffer <= Stream(rs)
    ensures printed == Printed(Readable(rs, |buffer|), level, yaml, skipInMainThread)
    ensures IsLowest(Readable(rs, |buffer|), level, yaml, lowest)
  {
    printed, lowest := [], INT_MAX;
    ghost var rest := rs;
    ghost var done: seq<Record> := [];
    var ptr := 0;
    assert buffer[0..] == buffer;
    while ptr < |buffer|
      invariant At(buffer, ptr, rest)
      invariant done + Readable(rest, |buffer| - ptr) == Readable(rs, |buffer|)
      invariant printed == Printed(done, level, yaml, skipInMainThread) && IsLowest(done, level, yaml, lowest) && lowest <= INT_MAX
      decreases |buffer| - ptr
    {
      var delim := NextRecord(buffer, ptr, rest);
      if delim == |buffer| {
        break;
      }
      var r := Record(TypeFromCode(buffer[ptr]), LevelFromCode(buffer[ptr]), buffer[ptr + 1..delim]);
      assert r == rest[0];
      printed, lowest := PrintRecord(r, level, yaml, skipInMainThread, printed, lowest, done);
      Regroup(done, r, Readable(rest[1..], |buffer| - (delim + 1)));
      done := done + [r];
      ptr := delim + 1;
      rest := rest[1..];
    }
    assert done == Readable(rs, |buffer|);
  }

  /** One record, after those `done`. */
  method PrintRecord(r: Record, level: int, yaml: bool, skipInMainThread: bool, before: seq<Record>, lowestBefore: int, ghost done: seq<Record>)
    returns (printed: seq<Record>, lowest: int)
    requires RecordOk(r) && before == Printed(done, level, yaml, skipInMainThread)
    requires IsLowest(done, level, yaml, lowestBefore) && lowestBefore <= INT_MAX
    ensures printed == Printed(done + [r], level, yaml, skipInMainThread)
    ensures IsLowest(done + [r], level, yaml, lowest) && lowest <= INT_MAX
  {
    printed, lowest := before, lowestBefore;
    PrintStep(done, r, level, yaml, skipInMainThread, lowest);
    if r.level > level || (yaml && |r.body| == 0) || r.kind.UsedKnobValue? {
      return;
    }
    if !r.kind.SkipMessages? || !skipInMainThread {
      printed := printed + [r];
    }
    if r.level < lowest {
      lowest := r.level;
    }
  }

  lemma Regroup(a: seq<Record>, r: Record, b: seq<Record>)
    ensures a + ([r] + b) == (a + [r]) + b
  {
  }

  lemma PrintStep(done: seq<Record>, r: Record, level: int, yaml: bool, skip: bool, lowest: int)
    requires IsLowest(done, level, yaml, lowest) && lowest <= INT_MAX && RecordOk(r)
    ensures Printed(done + [r], level, yaml, skip)
            == Printed(done, level, yaml, skip) + if Handled(r, level, yaml) && Shown(r, skip) then [r] else []
    ensures IsLowest(done + [r], level, yaml, if Handled(r, level, yaml) && r.level < lowest then r.level else lowest)
  {
    var all := done + [r];
    assert all[..|done|] == done && all[|done|] == r;
    if lowest != INT_MAX {
      var i :| 0 <= i < |done| && Handled(done[i], level, yaml) && done[i].level == lowest;
      assert all[i] == done[i];
    }
  }
}

/** Escaping for a YAML single-quoted scalar (section 7.3.2 of YAML 1.2.2). */
module YamlEscape {

  const QUOTE := '\''

  /** Every quote doubled. */
  function Escape(s: string): string {
    if s == [] then [] else (if s[0] == QUOTE then [QUOTE, QUOTE] else [s[0]]) + Escape(s[1..])
  }

  lemma {:induction false} EscapeConcat(a: string, b: string)
    ensures Escape(a + b) == Escape(a) + Escape(b)
    decreases |a|
  {
    if a == [] {
      assert a + b == b;
    } else {
      assert (a + b)[1..] == a[1..] + b;
      EscapeConcat(a[1..], b);
    }
  }

  lemma {:induction false} EscapePlain(s: string)
    requires QUOTE !in s
    ensures Escape(s) == s
    decreases |s|
  {
    if s != [] { EscapePlain(s[1..]); }
  }

  method Find(s: string, from: nat) returns (i: nat)
    requires from <= |s|
    ensures from <= i <= |s| && QUOTE !in s[from..i]
    ensures i < |s| ==> s[i] == QUOTE
  {
    i := from;
    while i < |s| && s[i] != QUOTE
      invariant from <= i <= |s| && QUOTE !in s[from..i]
    {
      assert s[from..i + 1] == s[from..i] + [s[i]];
      i := i + 1;
    }
  }

  /** escape_for_single_line: chunks between quotes, each quote copied with the chunk before it and
      again with the one after it. */
  method EscapeForSingleLine(text: string) returns (escaped: string)
    ensures escaped == Escape(text)
  {
    var pos := Find(text, 0);
    assert text[0..pos] == text[..pos];
    if pos == |text| {
      EscapePlain(text);
      return text;
    }
    var storage, message := text[..pos + 1], text[pos..];
    FirstChunk(text, pos);
    pos := Find(message, 1);
    while pos < |message|
      invariant Pending(storage, message, text) && 1 <= pos <= |message|
      invariant QUOTE !in message[1..pos] && (pos < |message| ==> message[pos] == QUOTE)
      decreases |message|
    {
      NextChunk(storage, message, pos, text);
      storage := storage + message[..pos + 1];
      message := message[pos..];
      pos := Find(message, 1);
    }
    assert message[1..pos] == message[1..];
    LastChunk(storage, message, text);
    return storage + message;
  }

  /** What is stored, the second copy of a quote, and the text after it make up the whole. */
  ghost predicate Pending(storage: string, message: string, text: string) {
    message != [] && message[0] == QUOTE && storage + [QUOTE] + Escape(message[1..]) == Escape(text)
  }

  lemma FirstChunk(text: string, pos: nat)
    requires pos < |text| && text[pos] == QUOTE && QUOTE !in text[..pos]
    ensures Pending(text[..pos + 1], text[pos..], text)
  {
    assert text == text[..pos] + text[pos..];
    EscapeConcat(text[..pos], text[pos..]);
    EscapePlain(text[..pos]);
    assert Escape(text[pos..]) == [QUOTE, QUOTE] + Escape(text[pos..][1..]);
    assert text[..pos + 1] == text[..pos] + [QUOTE];
    Regroup(text[..pos], Escape(text[pos..][1..]));
  }

  lemma NextChunk(storage: string, message: string, pos: nat, text: string)
    requires Pending(storage, message, text)
    requires 0 < pos < |message| && message[pos] == QUOTE && QUOTE !in message[1..pos]
    ensures Pending(storage + message[..pos + 1], message[pos..], text)
  {
    var rest := message[1..];
    assert rest[..pos - 1] == message[1..pos] && rest[pos - 1..] == message[pos..];
    FirstChunk(rest, pos - 1);
    assert message[..pos + 1] == [QUOTE] + rest[..pos];
    assert storage + message[..pos + 1] + [QUOTE] + Escape(message[pos..][1..])
        == storage + [QUOTE] + (rest[..pos] + [QUOTE] + Escape(message[pos..][1..]));
  }

  lemma LastChunk(storage: string, message: string, text: string)
    requires Pending(storage, message, text) && QUOTE !in message[1..]
    ensures storage + message == Escape(text)
  {
    EscapePlain(message[1..]);
    assert message == [QUOTE] + message[1..];
  }

  lemma Regroup(a: string, b: string)
    ensures a + ([QUOTE, QUOTE] + b) == a + [QUOTE] + [QUOTE] + b
  {
  }

  /** How a YAML reader takes the text after the opening quote: two quotes stand for one, a quote
      alone ends the scalar. The result is the content and what follows the closing quote. */
  datatype Scan = Unterminated | Scalar(content: string, rest: string)

  function ReadQuoted(s: string): Scan {
    if s == [] then Unterminated
    else if s[0] != QUOTE then Prepend(s[0], ReadQuoted(s[1..]))
    else if |s| > 1 && s[1] == QUOTE then Prepend(QUOTE, ReadQuoted(s[2..]))
    else Scalar([], s[1..])
  }

  function Prepend(c: char, s: Scan): Scan {
    if s.Scalar? then Scalar([c] + s.content, s.rest) else s
  }

  /** A reader finds the message again, whatever follows the closing quote on the line. */
  lemma {:induction false} EscapeRoundTrip(s: string, rest: string)
    requires rest == [] || rest[0] != QUOTE
    ensures ReadQuoted(Escape(s) + [QUOTE] + rest) == Scalar(s, rest)
    decreases |s|
  {
    var t := Escape(s) + [QUOTE] + rest;
    if s == [] {
      assert t == [QUOTE] + rest;
    } else {
      EscapeRoundTrip(s[1..], rest);
      var tail := Escape(s[1..]) + [QUOTE] + rest;
      if s[0] == QUOTE {
        assert t == [QUOTE, QUOTE] + tail && t[2..] == tail;
      } else {
        assert t == [s[0]] + tail && t[1..] == tail;
      }
      assert s == [s[0]] + s[1..];
    }
  }
}
