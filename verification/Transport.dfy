/** Message text on its way in and out: line endings on receipt, dot-stuffed lines on
    retrieval, and the bytes a client puts together again. */
module Transport {
  import opened Wrappers
  import opened MailDisk

  const CR: byte := 13
  const LF: byte := 10
  const DOT: byte := 46

  // ---- line endings

  predicate BareLfAt(raw: Bytes, i: nat)
    requires i < |raw|
  {
    raw[i] == LF && (i == 0 || raw[i - 1] != CR)
  }

  function Normalised(raw: Bytes): Bytes {
    if raw == [] then []
    else
      Normalised(raw[..|raw| - 1])
      + (if BareLfAt(raw, |raw| - 1) then [CR, LF] else [raw[|raw| - 1]])
  }

  /** Every LF follows a CR. */
  predicate NormalText(text: Bytes) {
    forall i :: 0 <= i < |text| && text[i] == LF ==> i > 0 && text[i - 1] == CR
  }

  lemma {:induction false} NormalisedIsIdentity(raw: Bytes)
    requires NormalText(raw)
    ensures Normalised(raw) == raw
  {
    if raw != [] {
      NormalisedIsIdentity(raw[..|raw| - 1]);
    }
  }

  method NormaliseLineEndings(raw: Bytes) returns (out: Bytes)
    ensures out == Normalised(raw)
  {
    if LF !in raw {
      NormalisedIsIdentity(raw);
      return raw;
    }
    out := [];
    for i := 0 to |raw|
      invariant out == Normalised(raw[..i])
    {
      assert raw[..i + 1][..i] == raw[..i];
      if raw[i] == LF && (i == 0 || raw[i - 1] != CR) {
        out := out + [CR, LF];
        continue;
      }
      out := out + [raw[i]];
    }
    assert raw[..|raw|] == raw;
  }

  lemma {:induction false} NormalisedIsNormal(raw: Bytes)
    ensures NormalText(Normalised(raw))
    ensures raw != [] ==> Normalised(raw) != [] && Normalised(raw)[|Normalised(raw)| - 1] == raw[|raw| - 1]
  {
    if raw != [] {
      var init := raw[..|raw| - 1];
      NormalisedIsNormal(init);
      var before, text := Normalised(init), Normalised(raw);
      forall i | 0 <= i < |text| && text[i] == LF ensures i > 0 && text[i - 1] == CR {
        if i < |before| {
          assert text[i] == before[i];
        }
      }
    }
  }

  lemma NormalisedIdempotent(raw: Bytes)
    ensures Normalised(Normalised(raw)) == Normalised(raw)
  {
    NormalisedIsNormal(raw);
    NormalisedIsIdentity(Normalised(raw));
  }

  /** The text with every CRLF written as LF. */
  function Collapsed(text: Bytes): Bytes {
    if text == [] then []
    else
      var n := |text|;
      if n >= 2 && text[n - 1] == LF && text[n - 2] == CR then Collapsed(text[..n - 2]) + [LF]
      else Collapsed(text[..n - 1]) + [text[n - 1]]
  }

  /** Nothing but line endings changes. */
  lemma {:induction false} NormalisedSameText(raw: Bytes)
    ensures Collapsed(Normalised(raw)) == Collapsed(raw)
  {
    var n := |raw|;
    if n >= 2 && raw[n - 1] == LF && raw[n - 2] == CR {
      var head := raw[..n - 2];
      assert raw == head + [CR] + [LF];
      NormalisedSameText(head);
      SameAfterCrLf(head);
    } else if n > 0 {
      var init := raw[..n - 1];
      assert raw == init + [raw[n - 1]];
      NormalisedSameText(init);
      SameAfterByte(init, raw[n - 1]);
    }
  }

  lemma NormalisedSnoc(init: Bytes, last: byte)
    ensures Normalised(init + [last])
         == Normalised(init) + if last == LF && (init == [] || init[|init| - 1] != CR) then [CR, LF] else [last]
  {
    assert (init + [last])[..|init|] == init;
  }

  lemma SameAfterCrLf(head: Bytes)
    requires Collapsed(Normalised(head)) == Collapsed(head)
    ensures Collapsed(Normalised(head + [CR] + [LF])) == Collapsed(head + [CR] + [LF])
  {
    NormalisedSnoc(head, CR);
    NormalisedSnoc(head + [CR], LF);
    CollapsedCrLf(head);
    CollapsedCrLf(Normalised(head));
  }

  lemma SameAfterByte(init: Bytes, last: byte)
    requires Collapsed(Normalised(init)) == Collapsed(init)
    requires !(last == LF && init != [] && init[|init| - 1] == CR)
    ensures Collapsed(Normalised(init + [last])) == Collapsed(init + [last])
  {
    NormalisedSnoc(init, last);
    CollapsedOther(init, last);
    CollapsedByte(Normalised(init), last);
  }

  /** A byte that is not LF, or an LF written out as CRLF, adds itself. */
  lemma CollapsedByte(text: Bytes, last: byte)
    ensures Collapsed(text + if last == LF then [CR, LF] else [last]) == Collapsed(text) + [last]
  {
    if last == LF {
      assert text + [CR, LF] == text + [CR] + [LF];
      CollapsedCrLf(text);
    } else {
      CollapsedOther(text, last);
    }
  }

  lemma CollapsedCrLf(text: Bytes)
    ensures Collapsed(text + [CR] + [LF]) == Collapsed(text) + [LF]
  {
    var longer := text + [CR] + [LF];
    assert longer[..|longer| - 2] == text;
  }

  lemma CollapsedOther(text: Bytes, b: byte)
    requires !(b == LF && text != [] && text[|text| - 1] == CR)
    ensures Collapsed(text + [b]) == Collapsed(text) + [b]
  {
    var longer := text + [b];
    assert longer[..|longer| - 1] == text && longer[|longer| - 1] == b;
    assert |longer| >= 2 ==> longer[|longer| - 2] == text[|text| - 1];
  }

  function BareLfs(raw: Bytes): nat {
    if raw == [] then 0
    else BareLfs(raw[..|raw| - 1]) + if BareLfAt(raw, |raw| - 1) then 1 else 0
  }

  /** One byte is added per bare LF and none elsewhere. */
  lemma {:induction false} NormalisedLength(raw: Bytes)
    ensures |Normalised(raw)| == |raw| + BareLfs(raw)
  {
    if raw != [] {
      NormalisedLength(raw[..|raw| - 1]);
    }
  }

  // ---- lines

  /** Position just after the first LF, or the length. */
  function LineEnd(text: Bytes): (k: nat)
    requires text != []
    ensures 0 < k <= |text|
    ensures forall i :: 0 <= i < k - 1 ==> text[i] != LF
    ensures text[k - 1] == LF || k == |text|
  {
    if text[0] == LF || |text| == 1 then 1 else 1 + LineEnd(text[1..])
  }

  /** The text cut after each LF. */
  function Lines(text: Bytes): seq<Bytes>
    decreases |text|
  {
    if text == [] then []
    else var k := LineEnd(text); [text[..k]] + Lines(text[k..])
  }

  /** A line without its trailing CRs and LFs. */
  function Content(line: Bytes): (c: Bytes)
    ensures c <= line
    ensures c == [] || (c[|c| - 1] != CR && c[|c| - 1] != LF)
    ensures forall i :: |c| <= i < |line| ==> line[i] == CR || line[i] == LF
  {
    if line != [] && (line[|line| - 1] == CR || line[|line| - 1] == LF)
    then Content(line[..|line| - 1]) else line
  }

  function Contents(text: Bytes): seq<Bytes>
    decreases |text|
  {
    if text == [] then []
    else var k := LineEnd(text); [Content(text[..k])] + Contents(text[k..])
  }

  /** What can travel as one line: no LF in it and no CR at its end. */
  predicate CleanLine(c: Bytes) {
    LF !in c && (c == [] || c[|c| - 1] != CR)
  }

  lemma {:induction false} ContentsAreClean(text: Bytes)
    ensures forall i :: 0 <= i < |Contents(text)| ==> CleanLine(Contents(text)[i])
    decreases |text|
  {
    if text != [] {
      var k := LineEnd(text);
      ContentsAreClean(text[k..]);
      var c := Content(text[..k]);
      forall i | 0 <= i < |c| ensures c[i] != LF {
        if i == k - 1 {
          assert c[|c| - 1] != LF;
        }
      }
    }
  }

  // ---- multi-line responses

  function Stuffed(c: Bytes): Bytes {
    if c != [] && c[0] == DOT then [DOT] + c else c
  }

  function WireLine(c: Bytes): Bytes {
    Stuffed(c) + [CR, LF]
  }

  function StuffedLines(contents: seq<Bytes>): Bytes {
    if contents == [] then []
    else StuffedLines(contents[..|contents| - 1]) + WireLine(contents[|contents| - 1])
  }

  lemma StuffedLinesExtend(contents: seq<Bytes>, i: nat)
    requires i < |contents|
    ensures StuffedLines(contents[..i + 1]) == StuffedLines(contents[..i]) + WireLine(contents[i])
  {
    assert contents[..i + 1][..i] == contents[..i];
  }

  lemma ContentsStep(body: Bytes, pos: nat, all: seq<Bytes>, i: nat)
    requires pos < |body| && i <= |all| && all[i..] == Contents(body[pos..])
    ensures var k := LineEnd(body[pos..]);
            && i < |all| && all[i] == Content(body[pos..pos + k])
            && pos + k <= |body| && all[i + 1..] == Contents(body[pos + k..])
  {
    var k := LineEnd(body[pos..]);
    Reslice(body, pos, k);
    ContentsUnfold(body[pos..]);
    TailOf(all, i, Content(body[pos..pos + k]), Contents(body[pos + k..]));
  }

  lemma Reslice(body: Bytes, pos: nat, k: nat)
    requires pos + k <= |body|
    ensures body[pos..][k..] == body[pos + k..] && body[pos..][..k] == body[pos..pos + k]
  {
  }

  lemma ContentsUnfold(text: Bytes)
    requires text != []
    ensures Contents(text) == [Content(text[..LineEnd(text)])] + Contents(text[LineEnd(text)..])
  {
  }

  lemma TailOf(all: seq<Bytes>, i: nat, head: Bytes, tail: seq<Bytes>)
    requires i <= |all| && all[i..] == [head] + tail
    ensures i < |all| && all[i] == head && all[i + 1..] == tail
  {
    assert all[i] == all[i..][0];
    assert all[i + 1..] == all[i..][1..];
  }

  function Dotted(contents: seq<Bytes>): Bytes {
    StuffedLines(contents) + [DOT, CR, LF]
  }

  /** Position of the first empty line, or the number of lines. */
  function FirstEmpty(contents: seq<Bytes>): (h: nat)
    ensures h <= |contents|
    ensures forall i :: 0 <= i < h ==> contents[i] != []
    ensures h < |contents| ==> contents[h] == []
  {
    if contents == [] || contents[0] == [] then 0 else 1 + FirstEmpty(contents[1..])
  }

  /** How many lines are sent: all of them, or the headers, the blank line and at most n
      lines of the body. */
  function Shown(contents: seq<Bytes>, n: int): (r: nat)
    ensures r <= |contents|
  {
    if n < 0 || |contents| <= FirstEmpty(contents) + 1 + n then |contents|
    else FirstEmpty(contents) + 1 + n
  }

  /** Reads up to and including the next LF, or to the end, and trims the line ending. */
  method ReadTrimmed(body: Bytes, pos: nat, ghost all: seq<Bytes>, ghost i: nat) returns (trimmed: Bytes, next: nat)
    requires pos < |body| && i <= |all| && all[i..] == Contents(body[pos..])
    ensures i < |all| && trimmed == all[i]
    ensures pos < next <= |body| && all[i + 1..] == Contents(body[next..])
  {
    ContentsStep(body, pos, all, i);
    next := pos + LineEnd(body[pos..]);
    trimmed := Content(body[pos..next]);
  }

  method WriteLine(line: Bytes) returns (written: Bytes)
    ensures written == WireLine(line)
  {
    var trimmed := line;
    if trimmed != [] && trimmed[0] == DOT {
      trimmed := [DOT] + trimmed;
    }
    return trimmed + [CR, LF];
  }

  /** Where the loop stands before line i. */
  ghost predicate AtLine(all: seq<Bytes>, bodyLines: int, i: nat, headerDone: bool, emitted: int) {
    && i <= Shown(all, bodyLines)
    && (headerDone <==> bodyLines < 0 || FirstEmpty(all) < i)
    && emitted == if bodyLines >= 0 && headerDone then i - (FirstEmpty(all) + 1) else 0
  }

  predicate Stops(bodyLines: int, headerDone: bool, emitted: int) {
    headerDone && bodyLines >= 0 && emitted >= bodyLines
  }

  /** One line on: either it is beyond the limit, or the loop stands before the next. */
  lemma NextLine(all: seq<Bytes>, bodyLines: int, i: nat, headerDone: bool, emitted: int)
    requires AtLine(all, bodyLines, i, headerDone, emitted) && i < |all|
    ensures Stops(bodyLines, headerDone, emitted) ==> i == Shown(all, bodyLines)
    ensures !Stops(bodyLines, headerDone, emitted) ==>
              AtLine(all, bodyLines, i + 1, headerDone || all[i] == [],
                     if headerDone && bodyLines >= 0 then emitted + 1 else emitted)
  {
  }

  lemma LastLine(all: seq<Bytes>, bodyLines: int, i: nat, headerDone: bool, emitted: int)
    requires AtLine(all, bodyLines, i, headerDone, emitted)
    requires i == |all| || Stops(bodyLines, headerDone, emitted)
    ensures i == Shown(all, bodyLines)
  {
  }

  method WriteDotted(body: Bytes, bodyLines: int) returns (out: Bytes)
    ensures out == Dotted(Contents(body)[..Shown(Contents(body), bodyLines)])
  {
    ghost var all := Contents(body);
    ghost var i := 0;
    out := [];
    var headerDone := bodyLines < 0;
    var emitted := 0;
    var pos := 0;
    assert body[0..] == body;
    while pos < |body|
      invariant 0 <= pos <= |body| && 0 <= i <= |all|
      invariant all[i..] == Contents(body[pos..])
      invariant out == StuffedLines(all[..i])
      invariant AtLine(all, bodyLines, i, headerDone, emitted)
      decreases |body| - pos
    {
      var trimmed, next := ReadTrimmed(body, pos, all, i);
      NextLine(all, bodyLines, i, headerDone, emitted);
      if !headerDone && trimmed == [] {
        headerDone := true;
      } else if headerDone && bodyLines >= 0 {
        if emitted >= bodyLines {
          break;
        }
        emitted := emitted + 1;
      }
      var written := WriteLine(trimmed);
      StuffedLinesExtend(all, i);
      out := out + written;
      i := i + 1;
      pos := next;
    }
    LastLine(all, bodyLines, i, headerDone, emitted);
    out := out + [DOT, CR, LF];
  }

  // ---- the client's side

  function CrlfAt(wire: Bytes): (r: Option<nat>)
    ensures r.Some? ==> r.value + 1 < |wire| && wire[r.value] == CR && wire[r.value + 1] == LF
    ensures r.Some? ==> forall i :: 0 <= i < r.value ==> !(wire[i] == CR && wire[i + 1] == LF)
    ensures r.None? ==> forall i :: 0 <= i < |wire| - 1 ==> !(wire[i] == CR && wire[i + 1] == LF)
  {
    if |wire| < 2 then None
    else if wire[0] == CR && wire[1] == LF then Some(0)
    else
      match CrlfAt(wire[1..])
      case None => None
      case Some(k) => Some(k + 1)
  }

  /** Reads CRLF lines up to a lone dot and drops one leading dot of every other line.
      Answers the lines and what is left of the input. */
  function Receive(wire: Bytes): Option<(seq<Bytes>, Bytes)>
    decreases |wire|
  {
    match CrlfAt(wire)
    case None => None
    case Some(k) =>
      var line, rest := wire[..k], wire[k + 2..];
      if line == [DOT] then Some(([], rest))
      else
        match Receive(rest)
        case None => None
        case Some(more) => Some(([if line != [] && line[0] == DOT then line[1..] else line] + more.0, more.1))
  }

  lemma ReceiveLine(c: Bytes, rest: Bytes)
    requires CleanLine(c)
    ensures CrlfAt(Stuffed(c) + [CR, LF] + rest) == Some(|Stuffed(c)|)
  {
    var s := Stuffed(c);
    var wire := s + [CR, LF] + rest;
    assert wire[|s|] == CR && wire[|s| + 1] == LF;
    forall i | 0 <= i < |s| ensures !(wire[i] == CR && wire[i + 1] == LF) {
      assert wire[i] == s[i];
      assert forall j :: 0 <= j < |s| ==> s[j] != LF;
    }
  }

  lemma {:induction false} StuffedLinesFront(contents: seq<Bytes>)
    requires contents != []
    ensures StuffedLines(contents) == WireLine(contents[0]) + StuffedLines(contents[1..])
  {
    if |contents| == 1 {
      assert contents[..0] == [] && contents[1..] == [];
    } else {
      var init, last := contents[..|contents| - 1], contents[|contents| - 1];
      StuffedLinesFront(init);
      assert contents[1..][..|contents| - 2] == init[1..];
      assert contents[1..][|contents| - 2] == last;
      Associates(WireLine(contents[0]), StuffedLines(init[1..]), WireLine(last));
    }
  }

  lemma Associates(a: Bytes, b: Bytes, c: Bytes)
    ensures (a + b) + c == a + (b + c)
  {
  }

  lemma ReceiveStep(c: Bytes, tail: Bytes)
    requires CleanLine(c) && Receive(tail).Some?
    ensures var more := Receive(tail).value;
            Receive(WireLine(c) + tail) == Some(([c] + more.0, more.1))
  {
    ReceiveLine(c, tail);
    var wire := WireLine(c) + tail;
    var k := |Stuffed(c)|;
    assert wire[..k] == Stuffed(c) && wire[k + 2..] == tail;
    assert Stuffed(c) != [DOT];
    assert (if Stuffed(c) != [] && Stuffed(c)[0] == DOT then Stuffed(c)[1..] else Stuffed(c)) == c;
  }

  /** Dot-stuffing is transparent: whatever follows on the wire, the client gets back
      exactly the lines, and the terminator is taken for nothing else. */
  lemma {:induction false} ReceiveDotted(contents: seq<Bytes>, rest: Bytes)
    requires forall i :: 0 <= i < |contents| ==> CleanLine(contents[i])
    ensures Receive(Dotted(contents) + rest) == Some((contents, rest))
    decreases |contents|
  {
    if contents == [] {
      ReceiveTerminator(rest);
      assert Dotted([]) + rest == [DOT, CR, LF] + rest;
    } else {
      var tail := Dotted(contents[1..]) + rest;
      ReceiveDotted(contents[1..], rest);
      ReceiveStep(contents[0], tail);
      StuffedLinesFront(contents);
      DottedFront(contents, rest);
      assert contents == [contents[0]] + contents[1..];
    }
  }

  lemma DottedFront(contents: seq<Bytes>, rest: Bytes)
    requires contents != []
    ensures Dotted(contents) + rest == WireLine(contents[0]) + (Dotted(contents[1..]) + rest)
  {
    StuffedLinesFront(contents);
    Associates(WireLine(contents[0]), StuffedLines(contents[1..]), [DOT, CR, LF]);
    Associates(WireLine(contents[0]), Dotted(contents[1..]), rest);
  }

  lemma ReceiveTerminator(rest: Bytes)
    ensures Receive([DOT, CR, LF] + rest) == Some(([], rest))
  {
    var wire := [DOT, CR, LF] + rest;
    assert CrlfAt(wire) == Some(1);
    assert wire[..1] == [DOT] && wire[3..] == rest;
  }

  /** RETR: the client receives exactly the message's lines. */
  lemma RetrieveRoundTrip(body: Bytes, rest: Bytes)
    ensures Receive(Dotted(Contents(body)[..Shown(Contents(body), -1)]) + rest) == Some((Contents(body), rest))
  {
    ContentsAreClean(body);
    assert Contents(body)[..|Contents(body)|] == Contents(body);
    ReceiveDotted(Contents(body), rest);
  }

  /** TOP n: a prefix of what RETR sends, namely everything up to the first empty line
      and as many of the n lines after it as there are. */
  lemma TopIsPrefix(body: Bytes, n: nat, rest: Bytes)
    ensures var all := Contents(body);
            var h := FirstEmpty(all);
            var top := all[..Shown(all, n)];
            && Receive(Dotted(top) + rest) == Some((top, rest))
            && top <= all
            && (h == |all| ==> top == all)
            && (h < |all| ==> h < |top| && |top| - h - 1 == (if n <= |all| - h - 1 then n else |all| - h - 1))
  {
    ContentsAreClean(body);
    var all := Contents(body);
    ReceiveDotted(all[..Shown(all, n)], rest);
  }
}
