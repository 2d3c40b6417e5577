/** GPRS::rec_tcp_data (gprs.cpp): putting a message together from the chunks a serial line delivers.

    The line is the list of what successive `read_data` calls give. Chunks are shorter than the 100-byte
    buffer, so they are NUL-terminated in it. */
module Gprs {
  import opened Options
  import opened JsonValue
  import opened Numbers
  import opened Tokens
  import opened Hodgepodge

  /** One `read_data` call: bytes, or a negative result. */
  datatype Read = Data(bytes: string) | Failed

  /** Outcome: return value, `data_buf`, `data_len` where it is assigned, `has_heart`. `Died` is an exception that
      nothing catches; `Overrun` is an append past the end of `rec_buf`, behind which nothing is promised. */
  datatype Received = Received(ok: bool, data: string, length: Option<int>, heart: bool) | Died | Overrun

  datatype Cache = Cache(origText: string, hasText: bool)

  const EMPTY := Cache("", false)

  /** The size of `rec_buf`. */
  const MAX_REC := 512

  /** The arrivals in all. */
  const MAX_READS := MAX_REC / 32 - 1

  // ---- Searching ----

  /** `find(c)`; the length stands for npos. */
  function FindChar(s: string, c: char): (i: nat)
    ensures i <= |s| && (i < |s| ==> s[i] == c)
    ensures forall k | 0 <= k < i :: s[k] != c
  {
    if s == [] || s[0] == c then 0 else 1 + FindChar(s[1..], c)
  }

  predicate HasChar(s: string, c: char) {
    FindChar(s, c) < |s|
  }

  /** `find(pattern) != npos`. */
  predicate Contains(s: string, pattern: string) {
    exists i | 0 <= i <= |s| :: At(s, i, pattern)
  }

  /** `substr(bj, ej - bj + 1)` between the first braces; the count is unsigned, so a closing brace well
      before the opening one selects everything from the opening one on. */
  function Frame(text: string): string
    requires HasChar(text, '{') && HasChar(text, '}')
  {
    var bj, ej := FindChar(text, '{'), FindChar(text, '}');
    if ej + 1 < bj then text[bj..] else text[bj..ej + 1]
  }

  predicate HasFrame(text: string) {
    HasChar(text, '{') && HasChar(text, '}')
  }

  // ---- Reassembly ----

  /** The loop that appends chunks until a closing brace, a failed read or the last read allowed. `rec_buf` holds the
      same text with its terminator; None when a chunk does not fit there any more. */
  function Collect(text: string, arrivals: seq<Read>, times: nat): Option<string>
    decreases |arrivals|
  {
    if times >= MAX_READS || arrivals == [] || arrivals[0].Failed? || arrivals[0].bytes == [] then Some(text)
    else
      var longer := text + CString(arrivals[0].bytes);
      if |longer| >= MAX_REC then None
      else if HasChar(longer, '}') then Some(longer)
      else Collect(longer, arrivals[1..], times + 1)
  }

  /** How many arrivals the loop takes, a failed read among them. */
  function Taken(text: string, arrivals: seq<Read>, times: nat): (n: nat)
    ensures n <= |arrivals|
    decreases |arrivals|
  {
    if times >= MAX_READS || arrivals == [] then 0
    else if arrivals[0].Failed? || arrivals[0].bytes == [] then 1
    else
      var longer := text + CString(arrivals[0].bytes);
      if |longer| >= MAX_REC || HasChar(longer, '}') then 1 else 1 + Taken(longer, arrivals[1..], times + 1)
  }

  /** The final judgement on the collected text. */
  function Judge(collected: Option<string>): Received {
    match collected
    case None => Overrun
    case Some(text) => JudgeText(text)
  }

  function JudgeText(text: string): Received {
    if Contains(text, "CLOSED") then Received(false, "CLOSED", Some(-1), false)
    else if HasFrame(text) then Received(true, Frame(text), Some(|Frame(text)|), Contains(text, "Heart"))
    else Received(true, "", Some(0), false)
  }

  /** rec_tcp_data with an empty cache. */
  function Receive(arrivals: seq<Read>): Received {
    if arrivals == [] || arrivals[0].Failed? then Received(false, "", None, false)
    else
      var text := CString(arrivals[0].bytes);
      if HasFrame(text) then Received(true, Frame(text), Some(|Frame(text)|), Contains(text, "Heart"))
      else if HasChar(text, '{') then Judge(Collect(text, arrivals[1..], 1))
      else if Contains(text, "Heart") then Received(true, text, Some(|text|), true)
      else Received(false, "ERRORED", Some(7), false)
  }

  /** How many arrivals rec_tcp_data takes with an empty cache. */
  function AllTaken(arrivals: seq<Read>): (n: nat)
    ensures n <= |arrivals|
  {
    if arrivals == [] then 0
    else if arrivals[0].Failed? then 1
    else
      var text := CString(arrivals[0].bytes);
      if HasChar(text, '{') && !HasChar(text, '}') then 1 + Taken(text, arrivals[1..], 1) else 1
  }

  /** What a filled cache answers without reading: None when it holds neither a message nor a heartbeat. */
  function FromCache(scan: DoubleScanner, text: string): Option<Received> {
    var analysis := if HasFrame(text) then AnalysisOf(scan, Frame(text)) else Returns(-1);
    if analysis.Aborts? then Some(Died)
    else
      var message := analysis.code > 0;
      if message || Contains(text, "Heart") then
        Some(Received(true, if message then CString(Frame(text)) else "", None, Contains(text, "Heart")))
      else None
  }

  ghost predicate ShortChunks(arrivals: seq<Read>) {
    forall i | 0 <= i < |arrivals| && arrivals[i].Data? :: |arrivals[i].bytes| < 100
  }

  // ---- The buffer of the loop ----

  /** A C string at the start of a buffer. */
  ghost predicate HoldsText(buffer: array<char>, text: string)
    reads buffer
  {
    |text| < buffer.Length && buffer[..|text|] == text && buffer[|text|] == '\0' && NulFree(text)
  }

  /** `strncpy( buffer, source, n )` into a cleared buffer, for all `n` bytes of the source. */
  method StrNCpy(buffer: array<char>, source: string)
    requires |source| < buffer.Length && forall i | 0 <= i < buffer.Length :: buffer[i] == '\0'
    modifies buffer
    ensures HoldsText(buffer, CString(source))
  {
    ghost var text := CString(source);
    var i := 0;
    while i < |source| && source[i] != '\0'
      invariant i <= |text| && buffer[..i] == text[..i]
      invariant forall j | i <= j < buffer.Length :: buffer[j] == '\0'
    {
      buffer[i] := source[i];
      i := i + 1;
    }
    assert text[..i] == text;
  }

  /** `strncat( buffer, source, n )` for all `n` bytes of the source; false when it leaves the buffer. */
  method StrNCat(buffer: array<char>, source: string, ghost text: string) returns (fits: bool)
    requires HoldsText(buffer, text)
    modifies buffer
    ensures fits <==> |text + CString(source)| < buffer.Length
    ensures fits ==> HoldsText(buffer, text + CString(source))
  {
    ghost var added := CString(source);
    var end := 0;
    while buffer[end] != '\0'
      invariant end <= |text|
      decreases |text| - end
    {
      assert end < |text|;
      end := end + 1;
    }
    assert end == |text|;
    var i := 0;
    while i < |source| && source[i] != '\0'
      invariant i <= |added| && end + i < buffer.Length && buffer[..end + i] == text + added[..i]
    {
      if end + i + 1 == buffer.Length {
        return false;
      }
      buffer[end + i] := source[i];
      i := i + 1;
    }
    assert added[..i] == added;
    buffer[end + i] := '\0';
    fits := true;
  }

  class Gprs {
    var gprs_cache: Cache
    var incoming: seq<Read>
    const scan: DoubleScanner

    constructor (scan: DoubleScanner, incoming: seq<Read>)
      ensures this.scan == scan && this.incoming == incoming && gprs_cache == EMPTY
    {
      this.scan, this.incoming, gprs_cache := scan, incoming, EMPTY;
    }

    /** read_data into the cleared 100-byte buffer. */
    method ReadData() returns (ret: int, tmpBuf: string)
      requires ShortChunks(incoming)
      modifies this`incoming
      ensures ShortChunks(incoming)
      ensures old(incoming) == [] || old(incoming)[0].Failed? ==> ret == -1 && tmpBuf == ""
      ensures old(incoming) != [] && old(incoming)[0].Data? ==> ret == |tmpBuf| && tmpBuf == old(incoming)[0].bytes
      ensures incoming == if old(incoming) == [] then [] else old(incoming)[1..]
    {
      if incoming == [] { return -1, ""; }
      var read := incoming[0];
      incoming := incoming[1..];
      match read
      case Data(bytes) => ret, tmpBuf := |bytes|, bytes;
      case Failed => ret, tmpBuf := -1, "";
    }

    method RecTcpData() returns (result: Received)
      requires ShortChunks(incoming)
      modifies this`gprs_cache, this`incoming
      ensures var cached := if old(gprs_cache).hasText then FromCache(scan, old(gprs_cache).origText) else None;
        && result == (if cached.Some? then cached.value else Receive(old(incoming)))
        && incoming == if cached.Some? then old(incoming) else old(incoming)[AllTaken(old(incoming))..]
      ensures result.Died? ==> gprs_cache == old(gprs_cache)
      ensures !result.Died? ==> gprs_cache == EMPTY
    {
      if gprs_cache.hasText {
        var origText := gprs_cache.origText;
        var dataBuf, cacheCategory := "", false;
        if HasChar(origText, '{') && HasChar(origText, '}') {
          var analysis := AnalysisType(scan, Frame(origText));
          if analysis.Aborts? { return Died; }
          if analysis.code > 0 {
            dataBuf := CString(Frame(origText));
            cacheCategory := true;
          }
        }
        var cacheHeart := Contains(origText, "Heart");
        if cacheHeart || cacheCategory {
          gprs_cache := EMPTY;
          return Received(true, dataBuf, None, cacheHeart);
        }
      }
      gprs_cache := EMPTY;
      result := ReceiveMessage();
    }

    /** The part behind the cache. */
    method ReceiveMessage() returns (result: Received)
      requires ShortChunks(incoming)
      modifies this`incoming
      ensures result == Receive(old(incoming)) && incoming == old(incoming)[AllTaken(old(incoming))..]
    {
      hide Collect, Taken, Contains, Frame, FindChar;
      var ret, tmpBuf := ReadData();
      if ret < 0 { return Received(false, "", None, false); }
      var tmpStr := CString(tmpBuf);
      if !HasChar(tmpStr, '{') && Contains(tmpStr, "Heart") {
        return Received(true, tmpStr, Some(|tmpStr|), true);
      }
      if HasChar(tmpStr, '{') && HasChar(tmpStr, '}') {
        var dataBuf := Frame(tmpStr);
        return Received(true, dataBuf, Some(|dataBuf|), Contains(tmpStr, "Heart"));
      }
      if !HasChar(tmpStr, '{') {
        return Received(false, "ERRORED", Some(7), false);
      }
      var collected := ReadRest(tmpBuf);
      if collected.None? { return Overrun; }
      tmpStr := collected.value;
      if Contains(tmpStr, "CLOSED") { return Received(false, "CLOSED", Some(-1), false); }
      if HasChar(tmpStr, '{') && HasChar(tmpStr, '}') {
        var dataBuf := Frame(tmpStr);
        return Received(true, dataBuf, Some(|dataBuf|), Contains(tmpStr, "Heart"));
      }
      return Received(true, "", Some(0), false);
    }

    /** The reading loop, behind a first chunk with an opening brace and no closing one. */
    method ReadRest(first: string) returns (collected: Option<string>)
      requires ShortChunks(incoming) && 0 < |first| < MAX_REC && !HasChar(CString(first), '}')
      modifies this`incoming
      ensures collected == Collect(CString(first), old(incoming), 1)
      ensures incoming == old(incoming)[Taken(CString(first), old(incoming), 1)..]
    {
      hide HasChar, CString, NulFree;
      var tmpBuf, tmpStr, ret: int := first, CString(first), |first|;
      var rec_buf := new char[MAX_REC](_ => '\0');
      StrNCpy(rec_buf, tmpBuf);
      var times := 1;
      while times < MAX_READS && ret > 0
        invariant ShortChunks(incoming) && 1 <= times <= MAX_READS && HoldsText(rec_buf, tmpStr)
        invariant ret > 0 && !HasChar(tmpStr, '}')
        invariant Collect(CString(first), old(incoming), 1) == Collect(tmpStr, incoming, times)
        invariant old(incoming)[Taken(CString(first), old(incoming), 1)..] == incoming[Taken(tmpStr, incoming, times)..]
        decreases MAX_READS - times
      {
        ret, tmpBuf := ReadData();
        if ret <= 0 { break; }
        var fits := StrNCat(rec_buf, tmpBuf, tmpStr);
        if !fits { return None; }
        tmpStr := tmpStr + CString(tmpBuf);
        times := times + 1;
        if HasChar(tmpStr, '}') { break; }
      }
      collected := Some(tmpStr);
    }
  }

  // ---- Fragmentation does not matter ----

  /** The bytes of the first `n` chunks. */
  function Joined(chunks: seq<string>, n: nat): string
    requires n <= |chunks|
  {
    if n == 0 then "" else Joined(chunks, n - 1) + chunks[n - 1]
  }

  function AsReads(chunks: seq<string>): (r: seq<Read>)
    ensures |r| == |chunks| && forall i | 0 <= i < |chunks| :: r[i] == Data(chunks[i])
  {
    seq(|chunks|, i requires 0 <= i < |chunks| => Data(chunks[i]))
  }

  lemma {:induction false} JoinedPrefix(chunks: seq<string>, m: nat, n: nat)
    requires m <= n <= |chunks|
    ensures Joined(chunks, m) <= Joined(chunks, n)
    decreases n - m
  {
    if m < n {
      JoinedPrefix(chunks, m, n - 1);
    }
  }

  /** Non-empty and NUL-free: what the line delivers is what the buffer shows. */
  ghost predicate CleanChunks(chunks: seq<string>) {
    forall i | 0 <= i < |chunks| :: chunks[i] != "" && NulFree(chunks[i])
  }

  /** The number of chunks after which a closing brace has been received, or the last one read. */
  function ChunksRead(chunks: seq<string>, n: nat): (m: nat)
    requires 1 <= n <= |chunks|
    ensures n <= m <= |chunks|
    decreases |chunks| - n
  {
    if HasChar(Joined(chunks, n), '}') || n == |chunks| || n >= MAX_READS then n else ChunksRead(chunks, n + 1)
  }

  lemma ReadRound(chunks: seq<string>, n: nat)
    requires 1 <= n <= |chunks|
    ensures ChunksRead(chunks, n)
         == if HasChar(Joined(chunks, n), '}') || n == |chunks| || n >= MAX_READS then n else ChunksRead(chunks, n + 1)
  {
    hide HasChar, Joined;
  }

  lemma CollectRound(chunks: seq<string>, n: nat)
    requires CleanChunks(chunks) && 1 <= n <= |chunks|
    ensures var text := Collect(Joined(chunks, n), AsReads(chunks)[n..], n);
      if n == |chunks| || n >= MAX_READS then text == Some(Joined(chunks, n))
      else
        var longer := Joined(chunks, n + 1);
        text == if |longer| >= MAX_REC then None else if HasChar(longer, '}') then Some(longer)
                else Collect(longer, AsReads(chunks)[n + 1..], n + 1)
  {
    hide HasChar, CString;
    if n < |chunks| {
      var rest := AsReads(chunks)[n..];
      assert rest[0] == Data(chunks[n]) && rest[1..] == AsReads(chunks)[n + 1..];
      assert Joined(chunks, n + 1) == Joined(chunks, n) + CString(chunks[n]);
    }
  }

  /** The loop joins the chunks, and leaves `rec_buf` exactly when it appends at all and the chunks it reads are 512
      bytes or more together. */
  lemma {:induction false} CollectJoins(chunks: seq<string>, n: nat)
    requires CleanChunks(chunks) && 1 <= n <= |chunks| && !HasChar(Joined(chunks, n), '}')
    ensures var m := ChunksRead(chunks, n);
      Collect(Joined(chunks, n), AsReads(chunks)[n..], n)
      == if m > n && |Joined(chunks, m)| >= MAX_REC then None else Some(Joined(chunks, m))
    decreases |chunks| - n
  {
    hide HasChar, CleanChunks, Collect, ChunksRead, Joined, AsReads;
    ReadRound(chunks, n);
    CollectRound(chunks, n);
    if n < |chunks| && n < MAX_READS {
      JoinedPrefix(chunks, n + 1, ChunksRead(chunks, n + 1));
      if HasChar(Joined(chunks, n + 1), '}') {
        ReadRound(chunks, n + 1);
      } else {
        CollectJoins(chunks, n + 1);
      }
    }
  }

  /** The chunks that are read do not fit `rec_buf`. */
  predicate Overruns(chunks: seq<string>)
    requires chunks != []
  {
    var m := ChunksRead(chunks, 1);
    m > 1 && |Joined(chunks, m)| >= MAX_REC
  }

  lemma FirstChunk(chunks: seq<string>)
    requires CleanChunks(chunks) && chunks != [] && HasChar(chunks[0], '{')
    ensures Joined(chunks, 1) == chunks[0] && (HasChar(chunks[0], '}') ==> ChunksRead(chunks, 1) == 1)
    ensures var text := chunks[0];
      Receive(AsReads(chunks))
      == if HasFrame(text) then Received(true, Frame(text), Some(|Frame(text)|), Contains(text, "Heart"))
         else Judge(Collect(text, AsReads(chunks)[1..], 1))
  {
    hide Frame, Judge, Contains, HasChar, Collect;
    assert CString(chunks[0]) == chunks[0];
  }

  /** The first chunk holds the opening brace, so the chunks are joined up to the closing one. */
  lemma ReceiveJoins(chunks: seq<string>)
    requires CleanChunks(chunks) && chunks != [] && HasChar(chunks[0], '{')
    ensures var received := Joined(chunks, ChunksRead(chunks, 1));
      if HasFrame(chunks[0]) then
        received == chunks[0]
        && Receive(AsReads(chunks))
           == Received(true, Frame(received), Some(|Frame(received)|), Contains(received, "Heart"))
      else Receive(AsReads(chunks)) == Judge(if Overruns(chunks) then None else Some(received))
  {
    hide Frame, Judge, Contains, HasChar, Collect, CString, Receive, ChunksRead;
    FirstChunk(chunks);
    if !HasChar(chunks[0], '}') {
      CollectJoins(chunks, 1);
    }
  }

  // ---- An input that does not fit ----

  function Repeated(n: nat): (s: string)
    ensures |s| == n && forall i | 0 <= i < n :: s[i] == 'a'
  {
    seq(n, _ => 'a')
  }

  /** Six chunks of 99 bytes with the closing brace at the end: 594 bytes. */
  function LongMessage(): (chunks: seq<string>)
    ensures |chunks| == 6 && forall i | 0 <= i < 6 :: |chunks[i]| == 99
  {
    ["{" + Repeated(98), Repeated(99), Repeated(99), Repeated(99), Repeated(99), Repeated(98) + "}"]
  }

  lemma {:induction false} LongPrefix(n: nat)
    requires 1 <= n <= 6
    ensures var s := Joined(LongMessage(), n);
      |s| == 99 * n && s[0] == '{' && forall i | 1 <= i < |s| :: s[i] == if i == 593 then '}' else 'a'
  {
    if n > 1 {
      LongPrefix(n - 1);
    }
  }

  lemma LongMessageOverruns()
    ensures ShortChunks(AsReads(LongMessage())) && CleanChunks(LongMessage())
    ensures Overruns(LongMessage()) && Receive(AsReads(LongMessage())) == Overrun
  {
    hide Receive, Frame, Contains, FindChar;
    var chunks := LongMessage();
    LongReads(1);
    LongPrefix(1);
    LongPrefix(6);
    assert Joined(chunks, 1) == chunks[0];
    assert HasChar(chunks[0], '{') by { Occurs(chunks[0], 0, '{'); }
    ReceiveJoins(chunks);
    assert !HasFrame(chunks[0]) by { Missing(chunks[0], '}'); }
  }

  lemma Occurs(s: string, i: nat, c: char)
    requires i < |s| && s[i] == c
    ensures HasChar(s, c)
  {}

  lemma Missing(s: string, c: char)
    requires forall i | 0 <= i < |s| :: s[i] != c
    ensures !HasChar(s, c)
  {}

  lemma {:induction false} LongReads(n: nat)
    requires 1 <= n <= 6
    ensures ChunksRead(LongMessage(), n) == 6
    decreases 6 - n
  {
    hide HasChar, LongMessage, Joined;
    LongPrefix(n);
    if n < 6 {
      Missing(Joined(LongMessage(), n), '}');
      LongReads(n + 1);
    }
  }
}
