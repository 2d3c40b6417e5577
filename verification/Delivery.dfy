/** What the box receives from the line, in terms of the text on the line: the first pair of braces and what is between
    them, however the text is cut into chunks. */
module Delivery {
  import opened Options
  import opened Numbers
  import opened JsonValue
  import opened Tokens
  import opened Hodgepodge
  import opened Gprs

  // ---- The text between the braces ----

  predicate Without(s: string, c: char) {
    forall i | 0 <= i < |s| :: s[i] != c
  }

  lemma FindPlaced(before: string, c: char, rest: string)
    requires Without(before, c)
    ensures FindChar(before + [c] + rest, c) == |before|
  {
    assert (before + [c] + rest)[|before|] == c;
  }

  lemma HasOrNot(s: string, c: char)
    ensures HasChar(s, c) <==> !Without(s, c)
  {}

  /** An opening brace with a closing one behind it: the frame is what they enclose, both included. */
  lemma Enclosed(a: string, m: string, b: string)
    requires Without(a, '{') && Without(a, '}') && Without(m, '}')
    ensures var text := a + "{" + m + "}" + b; HasFrame(text) && Frame(text) == "{" + m + "}"
  {
    var text := a + "{" + m + "}" + b;
    assert text == a + "{" + (m + "}" + b) && text == (a + "{" + m) + "}" + b;
    FindPlaced(a, '{', m + "}" + b);
    FindPlaced(a + "{" + m, '}', b);
    assert text[|a|..|a| + |m| + 2] == "{" + m + "}";
  }

  /** A closing brace in front of the opening one: directly in front the frame is empty, further in front it is
      everything from the opening one on. */
  lemma Reversed(a: string, b: string, c: string)
    requires Without(a, '{') && Without(a, '}') && Without(b, '{')
    ensures var text := a + "}" + b + "{" + c; HasFrame(text) && Frame(text) == if b == "" then "" else "{" + c
  {
    var text := a + "}" + b + "{" + c;
    assert text == a + "}" + (b + "{" + c) && text == (a + "}" + b) + "{" + c;
    FindPlaced(a, '}', b + "{" + c);
    FindPlaced(a + "}" + b, '{', c);
    assert text[|a| + 1 + |b|..] == "{" + c;
  }

  // ---- A cut of a text with an opening brace ----

  /** The text on the line: the first opening brace, and behind it the first closing one, if any. */
  ghost predicate Opened(a: string, m: string, rest: string) {
    Without(a, '{') && Without(a, '}') && Without(m, '}') && (rest == "" || rest[0] == '}')
  }

  /** The chunks make up the text; the first reaches past the opening brace, and number `closing` is the first to reach
      past the closing one, or one more than there are when none does. */
  ghost predicate Cut(a: string, m: string, rest: string, chunks: seq<string>, closing: nat) {
    && Opened(a, m, rest) && CleanChunks(chunks) && chunks != [] && |a| < |chunks[0]|
    && Joined(chunks, |chunks|) == a + "{" + m + rest
    && 1 <= closing <= |chunks| + 1
    && (closing <= |chunks| ==> |Joined(chunks, closing)| > |a| + 1 + |m|)
    && (closing > 1 ==> |Joined(chunks, closing - 1)| <= |a| + 1 + |m|)
  }

  /** The chunks read: up to the closing brace, but not more than there are or than fifteen. */
  function Reads(chunks: seq<string>, closing: nat): nat {
    if closing <= |chunks| && closing <= 15 then closing else if |chunks| <= 15 then |chunks| else 15
  }

  /** Every prefix of the text holds the braces it reaches past, and the frame once it holds both. */
  lemma PrefixBraces(a: string, m: string, rest: string, s: string)
    requires Opened(a, m, rest) && s <= a + "{" + m + rest
    ensures HasChar(s, '{') <==> |s| > |a|
    ensures HasChar(s, '}') <==> |s| > |a| + 1 + |m|
    ensures |s| > |a| + 1 + |m| ==> Frame(s) == "{" + m + "}"
  {
    hide HasChar, Frame;
    HasOrNot(s, '{');
    HasOrNot(s, '}');
    var text := a + "{" + m + rest;
    assert s == text[..|s|];
    assert text[|a|] == '{' && (rest != "" ==> text[|a| + 1 + |m|] == '}');
    assert forall i | 0 <= i < |a| :: text[i] == a[i];
    assert forall i | |a| < i < |a| + 1 + |m| :: text[i] == m[i - |a| - 1];
    if |s| > |a| {
      assert s[|a|] == '{';
    }
    if |s| > |a| + 1 + |m| {
      assert s[|a| + 1 + |m|] == '}';
      var b := s[|a| + 2 + |m|..];
      assert s == a + "{" + m + "}" + b;
      Enclosed(a, m, b);
    }
  }

  lemma JoinedPlaced(a: string, m: string, rest: string, chunks: seq<string>, closing: nat, n: nat)
    requires Cut(a, m, rest, chunks, closing) && 1 <= n <= |chunks|
    ensures Joined(chunks, n) <= a + "{" + m + rest && |a| < |Joined(chunks, n)|
    ensures |Joined(chunks, n)| > |a| + 1 + |m| <==> closing <= n
  {
    hide CleanChunks, Opened;
    JoinedPrefix(chunks, n, |chunks|);
    assert Joined(chunks, 1) == chunks[0];
    JoinedPrefix(chunks, 1, n);
    hide Joined;
    if closing <= n {
      JoinedPrefix(chunks, closing, n);
    } else {
      JoinedPrefix(chunks, n, closing - 1);
    }
  }

  lemma {:induction false} ReadsUpTo(a: string, m: string, rest: string, chunks: seq<string>, closing: nat, n: nat)
    requires Cut(a, m, rest, chunks, closing) && 1 <= n <= Reads(chunks, closing)
    ensures ChunksRead(chunks, n) == Reads(chunks, closing)
    decreases |chunks| - n
  {
    JoinedPlaced(a, m, rest, chunks, closing, n);
    PrefixBraces(a, m, rest, Joined(chunks, n));
    hide Cut, Joined, HasChar;
    ReadRound(chunks, n);
    if n < Reads(chunks, closing) {
      ReadsUpTo(a, m, rest, chunks, closing, n + 1);
    }
  }

  /** Every outcome, however the text is cut: the message is the text from the first opening to the first closing brace,
      with its length. Only what has been read up to its chunk decides about the rest: a text in one chunk always
      arrives; one that does not fit the 512 bytes of `rec_buf` overruns it; "CLOSED" ends the connection; and
      without a closing brace within fifteen reads the message is empty. */
  lemma DeliveredExactly(a: string, m: string, rest: string, chunks: seq<string>, closing: nat)
    requires Cut(a, m, rest, chunks, closing)
    ensures Reads(chunks, closing) <= |chunks|
    ensures var received := Joined(chunks, Reads(chunks, closing));
      Receive(AsReads(chunks))
      == if closing > 1 && |chunks| > 1 && |received| >= 512 then Overrun
         else if closing > 1 && Contains(received, "CLOSED") then Received(false, "CLOSED", Some(-1), false)
         else if closing <= Reads(chunks, closing) then
           Received(true, "{" + m + "}", Some(|m| + 2), Contains(received, "Heart"))
         else Received(true, "", Some(0), false)
  {
    hide *;
    CutStarts(a, m, rest, chunks, closing);
    var received := Joined(chunks, Reads(chunks, closing));
    CutReads(a, m, rest, chunks, closing, Reads(chunks, closing));
    CutReads(a, m, rest, chunks, closing, 1);
    ReadsUpTo(a, m, rest, chunks, closing, 1);
    ReceiveJoins(chunks);
    OverrunsWhen(chunks);
    Judged(received);
  }

  lemma CutStarts(a: string, m: string, rest: string, chunks: seq<string>, closing: nat)
    requires Cut(a, m, rest, chunks, closing)
    ensures CleanChunks(chunks) && chunks != [] && Joined(chunks, 1) == chunks[0] && 1 <= closing
    ensures 1 <= Reads(chunks, closing) <= |chunks| && (Reads(chunks, closing) == 1 <==> closing == 1 || |chunks| == 1)
  {}

  /** The text of the first `n` chunks has its braces and its frame as `m` says. */
  lemma CutReads(a: string, m: string, rest: string, chunks: seq<string>, closing: nat, n: nat)
    requires Cut(a, m, rest, chunks, closing) && 1 <= n <= |chunks|
    ensures var s := Joined(chunks, n);
      && HasChar(s, '{') && (HasChar(s, '}') <==> closing <= n) && (HasFrame(s) <==> closing <= n)
      && (closing <= n ==> Frame(s) == "{" + m + "}" && |Frame(s)| == |m| + 2)
  {
    JoinedPlaced(a, m, rest, chunks, closing, n);
    hide HasChar, Frame, Joined, Opened, CleanChunks;
    PrefixBraces(a, m, rest, Joined(chunks, n));
  }

  lemma OverrunsWhen(chunks: seq<string>)
    requires chunks != []
    ensures Overruns(chunks) <==> ChunksRead(chunks, 1) > 1 && |Joined(chunks, ChunksRead(chunks, 1))| >= 512
  {}

  lemma Judged(text: string)
    ensures Judge(None) == Overrun
    ensures Judge(Some(text))
         == if Contains(text, "CLOSED") then Received(false, "CLOSED", Some(-1), false)
            else if HasFrame(text) then Received(true, Frame(text), Some(|Frame(text)|), Contains(text, "Heart"))
            else Received(true, "", Some(0), false)
  {
    hide Contains, HasFrame, Frame;
  }

  /** However the text is cut, as long as the closing brace comes within fifteen reads of less than 512 bytes together
      and the connection is not closed, the message is the same. */
  lemma FragmentationIndependence(a: string, m: string, rest: string, chunks: seq<string>, closing: nat)
    requires Cut(a, m, rest, chunks, closing) && closing <= |chunks| && closing <= 15
    requires closing == 1 || (|Joined(chunks, closing)| < 512 && !Contains(Joined(chunks, closing), "CLOSED"))
    ensures Receive(AsReads(chunks))
         == Received(true, "{" + m + "}", Some(|m| + 2), Contains(Joined(chunks, closing), "Heart"))
  {
    hide Receive, Contains, Joined, Opened, CleanChunks;
    DeliveredExactly(a, m, rest, chunks, closing);
  }

  /** Two ways of cutting a text give the same message and length. */
  lemma SameMessage(a: string, m: string, rest: string, chunks: seq<string>, closing: nat,
                    others: seq<string>, othersClosing: nat)
    requires Cut(a, m, rest, chunks, closing) && closing <= |chunks| && closing <= 15
    requires Cut(a, m, rest, others, othersClosing) && othersClosing <= |others| && othersClosing <= 15
    requires |a + "{" + m + rest| < 512 && !Contains(a + "{" + m + rest, "CLOSED")
    ensures var x, y := Receive(AsReads(chunks)), Receive(AsReads(others));
      x.Received? && y.Received? && x.ok && y.ok && x.data == y.data && x.length == y.length
  {
    hide *;
    PrefixOfShort(a, m, rest, chunks, closing);
    PrefixOfShort(a, m, rest, others, othersClosing);
    FragmentationIndependence(a, m, rest, chunks, closing);
    FragmentationIndependence(a, m, rest, others, othersClosing);
  }

  /** In two chunks: what counts is the text of both in the order of their arrival. */
  lemma TwoChunks(a: string, m: string, b: string, x: string, y: string)
    requires Without(a, '{') && Without(a, '}') && Without(m, '}') && x + y == a + "{" + m + "}" + b
    requires |a| < |x| <= |a| + 1 + |m| && y != "" && NulFree(x) && NulFree(y)
    requires |x + y| < 512 && !Contains(x + y, "CLOSED")
    ensures Receive([Data(x), Data(y)]) == Received(true, "{" + m + "}", Some(|m| + 2), Contains(x + y, "Heart"))
  {
    hide Receive, Contains, Joined;
    var chunks := [x, y];
    assert x + y == a + "{" + m + ("}" + b);
    JoinedTwo(x, y);
    assert AsReads(chunks) == [Data(x), Data(y)];
    FragmentationIndependence(a, m, "}" + b, chunks, 2);
  }

  lemma JoinedTwo(x: string, y: string)
    ensures Joined([x, y], 1) == x && Joined([x, y], 2) == x + y
  {
    assert Joined([x, y], 0) == "";
  }

  lemma PrefixOfShort(a: string, m: string, rest: string, chunks: seq<string>, closing: nat)
    requires Cut(a, m, rest, chunks, closing) && closing <= |chunks|
    requires |a + "{" + m + rest| < 512 && !Contains(a + "{" + m + rest, "CLOSED")
    ensures |Joined(chunks, closing)| < 512 && !Contains(Joined(chunks, closing), "CLOSED")
  {
    JoinedPlaced(a, m, rest, chunks, closing, closing);
    hide Joined, Contains;
    if Contains(Joined(chunks, closing), "CLOSED") {
      PrefixContains(Joined(chunks, closing), a + "{" + m + rest, "CLOSED");
    }
  }

  lemma PrefixContains(s: string, t: string, pattern: string)
    requires s <= t && Contains(s, pattern)
    ensures Contains(t, pattern)
  {
    var i :| 0 <= i <= |s| && At(s, i, pattern);
    assert t[i..i + |pattern|] == s[i..i + |pattern|];
    assert At(t, i, pattern);
  }

  /** A pattern is found wherever it stands, and only where it does. */
  lemma FoundExactly(a: string, pattern: string, b: string, s: string)
    ensures Contains(a + pattern + b, pattern)
    ensures Contains(s, pattern) ==> exists i | 0 <= i <= |s| - |pattern| :: s == s[..i] + pattern + s[i + |pattern|..]
  {
    assert At(a + pattern + b, |a|, pattern);
    if Contains(s, pattern) {
      var i :| 0 <= i <= |s| && At(s, i, pattern);
      assert s == s[..i] + pattern + s[i + |pattern|..];
    }
  }

  // ---- What stays on the line ----

  lemma TakenRound(chunks: seq<string>, n: nat)
    requires CleanChunks(chunks) && 1 <= n <= |chunks|
    ensures var taken := Taken(Joined(chunks, n), AsReads(chunks)[n..], n);
      if n == |chunks| || n >= MAX_READS then taken == 0
      else
        var longer := Joined(chunks, n + 1);
        taken == if |longer| >= MAX_REC || HasChar(longer, '}') then 1
                 else 1 + Taken(longer, AsReads(chunks)[n + 1..], n + 1)
  {
    hide HasChar, CString;
    if n < |chunks| {
      var rest := AsReads(chunks)[n..];
      assert rest[0] == Data(chunks[n]) && rest[1..] == AsReads(chunks)[n + 1..];
      assert Joined(chunks, n + 1) == Joined(chunks, n) + CString(chunks[n]);
    }
  }

  lemma {:induction false} TakenJoins(chunks: seq<string>, n: nat)
    requires CleanChunks(chunks) && 1 <= n <= |chunks| && !HasChar(Joined(chunks, n), '}')
    requires |Joined(chunks, ChunksRead(chunks, n))| < 512
    ensures Taken(Joined(chunks, n), AsReads(chunks)[n..], n) == ChunksRead(chunks, n) - n
    decreases |chunks| - n
  {
    hide HasChar, CleanChunks, Taken, ChunksRead, Joined, AsReads;
    ReadRound(chunks, n);
    TakenRound(chunks, n);
    if n < |chunks| && n < MAX_READS {
      JoinedPrefix(chunks, n + 1, ChunksRead(chunks, n + 1));
      if HasChar(Joined(chunks, n + 1), '}') {
        ReadRound(chunks, n + 1);
      } else {
        TakenJoins(chunks, n + 1);
      }
    }
  }

  /** Nothing behind the chunk with the closing brace is taken from the line. */
  lemma LeftOnLine(a: string, m: string, rest: string, chunks: seq<string>, closing: nat)
    requires Cut(a, m, rest, chunks, closing)
    requires closing == 1 || |Joined(chunks, Reads(chunks, closing))| < 512
    ensures AllTaken(AsReads(chunks)) == Reads(chunks, closing)
  {
    hide *;
    CutStarts(a, m, rest, chunks, closing);
    CutReads(a, m, rest, chunks, closing, 1);
    ReadsUpTo(a, m, rest, chunks, closing, 1);
    FirstTaken(chunks);
    if closing > 1 {
      TakenJoins(chunks, 1);
    }
  }

  lemma FirstTaken(chunks: seq<string>)
    requires CleanChunks(chunks) && chunks != [] && HasChar(chunks[0], '{')
    ensures AllTaken(AsReads(chunks))
         == if HasChar(chunks[0], '}') then 1 else 1 + Taken(chunks[0], AsReads(chunks)[1..], 1)
  {
    hide HasChar, Taken;
    assert CString(chunks[0]) == chunks[0];
  }

  // ---- The other answers ----

  /** Without an opening brace in the first chunk no second one is read: it is a heartbeat or an error. */
  lemma WithoutBrace(first: string, others: seq<Read>)
    requires NulFree(first) && Without(first, '{')
    ensures Receive([Data(first)] + others)
         == if Contains(first, "Heart") then Received(true, first, Some(|first|), true)
            else Received(false, "ERRORED", Some(7), false)
    ensures AllTaken([Data(first)] + others) == 1
  {
    hide HasChar, Contains, Frame, Collect, Judge;
    HasOrNot(first, '{');
    assert CString(first) == first;
  }

  lemma NothingRead(others: seq<Read>)
    ensures Receive([]) == Receive([Failed] + others) == Received(false, "", None, false)
  {}

  /** The closing brace first, in the first chunk. */
  lemma ReversedReceived(a: string, b: string, c: string, others: seq<Read>)
    requires Without(a, '{') && Without(a, '}') && Without(b, '{') && NulFree(a + "}" + b + "{" + c)
    ensures var first, data := a + "}" + b + "{" + c, if b == "" then "" else "{" + c;
      Receive([Data(first)] + others) == Received(true, data, Some(|data|), Contains(first, "Heart"))
  {
    Reversed(a, b, c);
    hide HasChar, Contains, Frame, Collect, Judge;
    var first := a + "}" + b + "{" + c;
    assert CString(first) == first;
  }

  /** The cache: a message is returned if its classification is positive, else a heartbeat, else nothing. */
  lemma CacheAnswers(scan: DoubleScanner, a: string, m: string, b: string)
    requires Without(a, '{') && Without(a, '}') && Without(m, '}') && NulFree(m)
    ensures var text, message := a + "{" + m + "}" + b, "{" + m + "}";
      var analysis, heart := AnalysisOf(scan, message), Contains(text, "Heart");
      FromCache(scan, text)
      == if analysis.Aborts? then Some(Died)
         else if analysis.code > 0 then Some(Received(true, message, None, heart))
         else if heart then Some(Received(true, "", None, true))
         else None
  {
    Enclosed(a, m, b);
    hide AnalysisOf, Contains, HasChar, Frame;
    assert CString("{" + m + "}") == "{" + m + "}";
  }

  /** Without a pair of braces only a heartbeat counts. */
  lemma CacheWithoutMessage(scan: DoubleScanner, text: string)
    requires Without(text, '{') || Without(text, '}')
    ensures FromCache(scan, text) == if Contains(text, "Heart") then Some(Received(true, "", None, true)) else None
  {
    hide AnalysisOf, Contains, HasChar, Frame;
    HasOrNot(text, '{');
    HasOrNot(text, '}');
  }
}
