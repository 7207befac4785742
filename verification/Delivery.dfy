/** From the bytes a sender transmits to the bytes a POP3 client stores. */
module Delivery {
  import opened MailDisk
  import opened Transport

  /** A client writes every received line followed by CRLF. */
  function Joined(contents: seq<Bytes>): Bytes {
    if contents == [] then [] else contents[0] + [CR, LF] + Joined(contents[1..])
  }

  /** Ends in CRLF, every LF follows a CR, and no line ends in two CRs. */
  predicate Deliverable(text: Bytes) {
    text == [] || (text[|text| - 1] == LF && forall i :: 0 <= i < |text| && text[i] == LF ==> LineEndsAt(text, i))
  }

  predicate LineEndsAt(text: Bytes, i: nat)
    requires i < |text|
  {
    i >= 1 && text[i - 1] == CR && (i < 2 || text[i - 2] != CR)
  }

  predicate GoodLine(line: Bytes) {
    Content(line) + [CR, LF] == line
  }

  lemma ContentOfEnded(c: Bytes)
    requires CleanLine(c)
    ensures Content(c + [CR, LF]) == c
  {
    var line := c + [CR, LF];
    assert line[..|line| - 1] == c + [CR];
    assert (c + [CR])[..|c|] == c;
  }

  lemma GoodLineIff(line: Bytes)
    requires line != [] && LineEnd(line) == |line|
    ensures GoodLine(line) <==> line[|line| - 1] == LF && LineEndsAt(line, |line| - 1)
  {
    if line[|line| - 1] == LF && LineEndsAt(line, |line| - 1) {
      EndedIsGood(line);
    }
    if GoodLine(line) {
      GoodIsEnded(line);
    }
  }

  lemma StartIsClean(line: Bytes)
    requires line != [] && LineEnd(line) == |line| && LineEndsAt(line, |line| - 1)
    ensures CleanLine(line[..|line| - 2])
  {
    var c := line[..|line| - 2];
    forall i | 0 <= i < |c| ensures c[i] != LF {
      assert c[i] == line[i];
    }
  }

  lemma CleanIsGood(c: Bytes, line: Bytes)
    requires CleanLine(c) && line == c + [CR, LF]
    ensures GoodLine(line)
  {
    ContentOfEnded(c);
  }

  lemma EndIsCrLf(line: Bytes)
    requires |line| >= 2 && line[|line| - 1] == LF && line[|line| - 2] == CR
    ensures line == line[..|line| - 2] + [CR, LF]
  {
  }

  lemma EndedIsGood(line: Bytes)
    requires line != [] && LineEnd(line) == |line|
    requires line[|line| - 1] == LF && LineEndsAt(line, |line| - 1)
    ensures GoodLine(line)
  {
    var c := line[..|line| - 2];
    CleanIsGood(c, line) by {
      StartIsClean(line);
      EndIsCrLf(line);
    }
  }

  lemma GoodIsEnded(line: Bytes)
    requires line != [] && LineEnd(line) == |line| && GoodLine(line)
    ensures line[|line| - 1] == LF && LineEndsAt(line, |line| - 1)
  {
    var k, c := |line|, Content(line);
    assert |c| == k - 2;
    assert line[k - 1] == LF && line[k - 2] == CR;
    if k >= 3 {
      assert line[k - 3] == c[k - 3];
    }
  }

  /** Two texts that start with a line each are equal line by line. */
  lemma FirstLineOfJoined(c: Bytes, tail: Bytes, line: Bytes, rest: Bytes)
    requires line != [] && LineEnd(line + rest) == |line| && CleanLine(c)
    requires c + [CR, LF] + tail == line + rest
    ensures c + [CR, LF] == line && tail == rest
  {
    var text := line + rest;
    var k := |line|;
    assert text[|c| + 1] == LF;
    assert forall i :: 0 <= i < |c| + 1 ==> text[i] == (c + [CR, LF])[i] != LF;
    assert k == |c| + 2;
    assert line == text[..k] && rest == text[k..];
    assert c + [CR, LF] == text[..k] && tail == text[k..];
  }

  lemma JoinedSplits(text: Bytes)
    requires text != []
    ensures var k := LineEnd(text);
            Joined(Contents(text)) == text <==>
            GoodLine(text[..k]) && Joined(Contents(text[k..])) == text[k..]
  {
    var k := LineEnd(text);
    var line, rest := text[..k], text[k..];
    assert line + rest == text;
    JoinedIs(text);
    LineByLine(Content(line), Joined(Contents(rest)), line, rest) by {
      FirstIsClean(text);
    }
  }

  lemma JoinedIs(text: Bytes)
    requires text != []
    ensures var k := LineEnd(text);
            Joined(Contents(text)) == Content(text[..k]) + [CR, LF] + Joined(Contents(text[k..]))
  {
    ContentsUnfold(text);
    JoinedFront(Content(text[..LineEnd(text)]), Contents(text[LineEnd(text)..]));
  }

  lemma FirstIsClean(text: Bytes)
    requires text != []
    ensures CleanLine(Content(text[..LineEnd(text)]))
  {
    ContentsUnfold(text);
    ContentsAreClean(text);
    assert CleanLine(Contents(text)[0]);
  }

  lemma LineByLine(c: Bytes, tail: Bytes, line: Bytes, rest: Bytes)
    requires line != [] && LineEnd(line + rest) == |line| && CleanLine(c)
    ensures c + [CR, LF] + tail == line + rest <==> c + [CR, LF] == line && tail == rest
  {
    if c + [CR, LF] + tail == line + rest {
      FirstLineOfJoined(c, tail, line, rest);
    }
  }

  lemma JoinedFront(c: Bytes, more: seq<Bytes>)
    ensures Joined([c] + more) == c + [CR, LF] + Joined(more)
  {
    assert ([c] + more)[1..] == more;
  }

  lemma DeliverableSplits(text: Bytes)
    requires text != []
    ensures var k := LineEnd(text);
            Deliverable(text) <==>
            text[k - 1] == LF && LineEndsAt(text[..k], k - 1) && Deliverable(text[k..])
  {
    var k := LineEnd(text);
    if Deliverable(text) {
      DeliverableTail(text, k);
    }
    if text[k - 1] == LF && LineEndsAt(text[..k], k - 1) && Deliverable(text[k..]) {
      DeliverableWhole(text, k);
    }
  }

  lemma DeliverableTail(text: Bytes, k: nat)
    requires text != [] && k == LineEnd(text) && Deliverable(text)
    ensures text[k - 1] == LF && LineEndsAt(text[..k], k - 1) && Deliverable(text[k..])
  {
    var rest := text[k..];
    assert LineEndsAt(text, k - 1);
    if rest != [] {
      assert rest[|rest| - 1] == text[|text| - 1];
      forall i | 0 <= i < |rest| && rest[i] == LF ensures LineEndsAt(rest, i) {
        assert text[k + i] == LF;
        assert LineEndsAt(text, k + i);
      }
    }
  }

  lemma DeliverableWhole(text: Bytes, k: nat)
    requires text != [] && k == LineEnd(text)
    requires text[k - 1] == LF && LineEndsAt(text[..k], k - 1) && Deliverable(text[k..])
    ensures Deliverable(text)
  {
    var rest := text[k..];
    if rest != [] {
      assert text[|text| - 1] == rest[|rest| - 1];
    }
    forall i | 0 <= i < |text| && text[i] == LF ensures LineEndsAt(text, i) {
      if i >= k {
        assert rest[i - k] == LF;
        assert LineEndsAt(rest, i - k);
        assert text[i - 1] == rest[i - k - 1];
        if i - k >= 2 {
          assert text[i - 2] == rest[i - k - 2];
        }
      } else {
        assert i == k - 1;
      }
    }
  }

  lemma LineIsOneLine(text: Bytes)
    requires text != []
    ensures LineEnd(text[..LineEnd(text)]) == LineEnd(text)
  {
    var k := LineEnd(text);
    assert forall i :: 0 <= i < k - 1 ==> text[..k][i] != LF;
  }

  /** A client gets the stored body back byte for byte exactly when the body consists of
      whole CRLF lines, none of which ends in a further CR. */
  lemma {:induction false} BodySurvives(text: Bytes)
    ensures Joined(Contents(text)) == text <==> Deliverable(text)
    decreases |text|
  {
    if text != [] {
      var k := LineEnd(text);
      BodySurvives(text[k..]);
      JoinedSplits(text);
      DeliverableSplits(text);
      assert GoodLine(text[..k]) <==> text[k - 1] == LF && LineEndsAt(text[..k], k - 1) by {
        LineIsOneLine(text);
        GoodLineIff(text[..k]);
      }
    }
  }

  // ---- end to end

  /** No CR CR LF anywhere. */
  predicate NoCrCrLf(raw: Bytes) {
    forall i :: 2 <= i < |raw| && raw[i] == LF && raw[i - 1] == CR ==> raw[i - 2] != CR
  }

  predicate AllLinesEnd(text: Bytes) {
    forall i :: 0 <= i < |text| && text[i] == LF ==> LineEndsAt(text, i)
  }

  lemma NoCrCrLfStep(raw: Bytes)
    requires raw != []
    ensures var n := |raw|;
            NoCrCrLf(raw) <==> NoCrCrLf(raw[..n - 1])
                               && !(n >= 3 && raw[n - 1] == LF && raw[n - 2] == CR && raw[n - 3] == CR)
  {
    var init := raw[..|raw| - 1];
    if NoCrCrLf(raw) {
      forall i | 2 <= i < |init| && init[i] == LF && init[i - 1] == CR ensures init[i - 2] != CR {
        assert raw[i] == LF;
      }
    }
  }

  lemma AllLinesEndStep(before: Bytes, b: byte)
    ensures AllLinesEnd(before + [b]) <==>
            AllLinesEnd(before) && (b == LF ==> LineEndsAt(before + [b], |before|))
  {
    var text := before + [b];
    if AllLinesEnd(text) {
      forall i | 0 <= i < |before| && before[i] == LF ensures LineEndsAt(before, i) {
        assert text[i] == LF;
        assert LineEndsAt(text, i);
      }
    }
    if AllLinesEnd(before) && (b == LF ==> LineEndsAt(text, |before|)) {
      forall i | 0 <= i < |text| && text[i] == LF ensures LineEndsAt(text, i) {
        if i < |before| {
          assert LineEndsAt(before, i);
        }
      }
    }
  }

  lemma {:induction false} NormalisedLinesEnd(raw: Bytes)
    ensures AllLinesEnd(Normalised(raw)) <==> NoCrCrLf(raw)
  {
    if raw != [] {
      var n := |raw|;
      NormalisedLinesEnd(raw[..n - 1]);
      NoCrCrLfStep(raw);
      if BareLfAt(raw, n - 1) {
        NormalisedBareEnd(raw);
      } else {
        NormalisedEnd(raw);
      }
    }
  }

  lemma NormalisedBareEnd(raw: Bytes)
    requires raw != [] && BareLfAt(raw, |raw| - 1)
    ensures AllLinesEnd(Normalised(raw)) <==> AllLinesEnd(Normalised(raw[..|raw| - 1]))
  {
    var before := Normalised(raw[..|raw| - 1]);
    NormalisedIsNormal(raw[..|raw| - 1]);
    assert Normalised(raw) == before + [CR] + [LF];
    BareLfEnds(before);
  }

  lemma NormalisedEnd(raw: Bytes)
    requires raw != [] && !BareLfAt(raw, |raw| - 1)
    ensures var n := |raw|;
            AllLinesEnd(Normalised(raw)) <==>
            AllLinesEnd(Normalised(raw[..n - 1]))
            && !(n >= 3 && raw[n - 1] == LF && raw[n - 2] == CR && raw[n - 3] == CR)
  {
    var init, b := raw[..|raw| - 1], raw[|raw| - 1];
    AllLinesEndStep(Normalised(init), b);
    if b == LF {
      LastBut(init);
    }
  }

  lemma BareLfEnds(before: Bytes)
    requires before == [] || before[|before| - 1] != CR
    ensures AllLinesEnd(before + [CR] + [LF]) <==> AllLinesEnd(before)
  {
    AllLinesEndStep(before, CR);
    AllLinesEndStep(before + [CR], LF);
  }

  /** A final CR and the byte before it are kept. */
  lemma LastBut(init: Bytes)
    requires init != [] && init[|init| - 1] == CR
    ensures var text := Normalised(init);
            && text != [] && text[|text| - 1] == CR
            && (|text| >= 2 <==> |init| >= 2)
            && (|init| >= 2 ==> text[|text| - 2] == init[|init| - 2])
  {
    var head := init[..|init| - 1];
    NormalisedIsNormal(head);
    assert Normalised(init) == Normalised(head) + [CR];
  }

  /** A header of whole CRLF lines leaves it to the text after it. */
  lemma HeaderSurvives(header: Bytes, text: Bytes)
    requires Deliverable(header)
    ensures Deliverable(header + text) <==> Deliverable(text)
  {
    if header == [] {
      assert header + text == text;
    } else if text == [] {
      assert header + text == header;
    } else {
      var h := |header|;
      forall i | 0 <= i < h && header[i] == LF ensures LineEndsAt(header + text, i) {
        assert LineEndsAt(header, i);
      }
      forall i | 0 <= i < |text| && text[i] == LF ensures LineEndsAt(text, i) <==> LineEndsAt(header + text, h + i) {
        assert header[h - 1] == LF;
      }
      if Deliverable(text) {
        HeaderThenText(header, text);
      }
      if Deliverable(header + text) {
        TextAfterHeader(header, text);
      }
    }
  }

  lemma HeaderThenText(header: Bytes, text: Bytes)
    requires header != [] && text != [] && Deliverable(text)
    requires forall i :: 0 <= i < |header| && header[i] == LF ==> LineEndsAt(header + text, i)
    requires forall i :: 0 <= i < |text| && text[i] == LF ==> (LineEndsAt(text, i) <==> LineEndsAt(header + text, |header| + i))
    ensures Deliverable(header + text)
  {
    var all := header + text;
    forall i | 0 <= i < |all| && all[i] == LF ensures LineEndsAt(all, i) {
      if i >= |header| {
        assert text[i - |header|] == LF && LineEndsAt(text, i - |header|);
      }
    }
  }

  lemma TextAfterHeader(header: Bytes, text: Bytes)
    requires header != [] && text != [] && Deliverable(header + text)
    requires forall i :: 0 <= i < |text| && text[i] == LF ==> (LineEndsAt(text, i) <==> LineEndsAt(header + text, |header| + i))
    ensures Deliverable(text)
  {
    var all := header + text;
    assert all[|all| - 1] == text[|text| - 1];
    forall i | 0 <= i < |text| && text[i] == LF ensures LineEndsAt(text, i) {
      assert all[|header| + i] == LF;
    }
  }

  /** What is stored of a message is a header and its normalised text. A message that arrives
      in whole lines, with either line ending, reaches a POP3 client as it is stored, byte
      for byte; one that does not, never does. */
  lemma SentIsRetrieved(header: Bytes, raw: Bytes, rest: Bytes)
    requires Deliverable(header)
    ensures var stored := header + Normalised(raw);
            var received := Receive(Dotted(Contents(stored)[..Shown(Contents(stored), -1)]) + rest);
            && received.Some? && received.value.1 == rest
            && (Joined(received.value.0) == stored <==>
                raw == [] || (raw[|raw| - 1] == LF && NoCrCrLf(raw)))
  {
    RetrieveRoundTrip(header + Normalised(raw), rest);
    BodySurvives(header + Normalised(raw));
    HeaderSurvives(header, Normalised(raw));
    NormalisedIsNormal(raw);
    NormalisedLinesEnd(raw);
  }
}
