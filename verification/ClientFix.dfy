/**
 * The fix a world's client needs to reach the cart: two methods added to one class of one of its modules, with
 * what every line around them is to Python unchanged.
 */
module ClientFix {
  import opened Bytes
  import opened PythonScan
  import opened ClientMethods

  const BACKEND: Text := "RetroArchNetworkInfo"
  const INDENT: Text := "    "

  // ---- lines ----

  /** Where the line at `i` ends: past its newline, or with the text. */
  function LineEnd(text: Text, i: nat): (n: nat)
    requires i < |text|
    ensures i < n <= |text| && (forall k :: i <= k < n - 1 ==> text[k] != '\n') && (n < |text| ==> text[n - 1] == '\n')
    decreases |text| - i
  {
    if text[i] == '\n' || i + 1 == |text| then i + 1 else LineEnd(text, i + 1)
  }

  function Lines(text: Text): (lines: seq<Text>)
    decreases |text|
  {
    if text == [] then [] else [text[..LineEnd(text, 0)]] + Lines(text[LineEnd(text, 0)..])
  }

  predicate IsLine(l: Text) {
    l != [] && forall k :: 0 <= k < |l| - 1 ==> l[k] != '\n'
  }

  predicate Ended(l: Text) {
    l != [] && l[|l| - 1] == '\n'
  }

  /** A text cut after each newline; only the final piece may lack one. */
  predicate AreLines(lines: seq<Text>) {
    (forall i :: 0 <= i < |lines| ==> IsLine(lines[i])) && forall i :: 0 <= i < |lines| - 1 ==> Ended(lines[i])
  }

  lemma {:induction false} LinesAre(text: Text)
    ensures AreLines(Lines(text)) && Concat(Lines(text)) == text
    decreases |text|
  {
    if text != [] {
      hide Concat;
      var n := LineEnd(text, 0);
      var l, rest := text[..n], Lines(text[n..]);
      LinesAre(text[n..]);
      assert text == l + text[n..];
      MoreLines(l, rest);
    }
  }

  lemma MoreLines(l: Text, rest: seq<Text>)
    requires AreLines(rest) && IsLine(l) && (rest != [] ==> Ended(l))
    ensures AreLines([l] + rest) && Concat([l] + rest) == l + Concat(rest)
  {
    assert ([l] + rest)[1..] == rest;
  }

  lemma {:induction false} LinesOf(lines: seq<Text>)
    requires AreLines(lines)
    ensures Lines(Concat(lines)) == lines
    decreases |lines|
  {
    if lines != [] {
      var l, rest := lines[0], lines[1..];
      var text := Concat(lines);
      assert text == l + Concat(rest);
      LinesOf(rest);
      FirstLine(l, Concat(rest), rest == []);
      hide AreLines; hide IsLine; hide Ended; hide LineEnd;
      assert text[..|l|] == l && text[|l|..] == Concat(rest);
    }
  }

  lemma FirstLine(l: Text, rest: Text, only: bool)
    requires IsLine(l) && (only ==> rest == []) && (!only ==> Ended(l))
    ensures LineEnd(l + rest, 0) == |l|
  {
    var text := l + rest;
    assert forall k :: 0 <= k < |l| ==> text[k] == l[k];
  }

  // ---- the class ----

  predicate StartsWith(s: Text, p: Text) {
    |p| <= |s| && s[..|p|] == p
  }

  function SkipSpace(line: Text, i: nat): (n: nat)
    requires i <= |line|
    ensures i <= n <= |line|
    decreases |line| - i
  {
    if i < |line| && IsSpace(line[i]) then SkipSpace(line, i + 1) else i
  }

  /** The line that begins the class. */
  predicate IsHeader(line: Text) {
    var name := "class " + BACKEND;
    StartsWith(line, name) && var n := SkipSpace(line, |name|); n < |line| && (line[n] == '(' || line[n] == ':')
  }

  predicate HeaderAt(lines: seq<Text>, kinds: seq<Kind>, i: nat)
    requires i < |lines| == |kinds|
  {
    kinds[i] == Statement(0) && IsHeader(lines[i])
  }

  function Headers(lines: seq<Text>, kinds: seq<Kind>, i: nat): (hs: seq<nat>)
    requires i <= |lines| == |kinds|
    ensures forall h :: h in hs <==> i <= h < |lines| && HeaderAt(lines, kinds, h)
    ensures |hs| > 1 ==> hs[0] < hs[1] && hs[1] in hs && hs[0] in hs
    decreases |lines| - i
  {
    if i == |lines| then []
    else
      var rest := Headers(lines, kinds, i + 1);
      assert rest != [] ==> rest[0] in rest;
      if HeaderAt(lines, kinds, i) then [i] + rest else rest
  }

  /** The next statement of the module itself, or its end. */
  function NextTop(kinds: seq<Kind>, i: nat): (n: nat)
    requires i <= |kinds|
    ensures i <= n <= |kinds| && (forall k :: i <= k < n ==> kinds[k] != Statement(0)) && (n < |kinds| ==> kinds[n] == Statement(0))
    decreases |kinds| - i
  {
    if i == |kinds| || kinds[i] == Statement(0) then i else NextTop(kinds, i + 1)
  }

  function FirstStatement(kinds: seq<Kind>, i: nat, end: nat): (f: Option<nat>)
    requires i <= end <= |kinds|
    ensures match f
            case Some(n) => i <= n < end && kinds[n].Statement? && forall k :: i <= k < n ==> !kinds[k].Statement?
            case None => forall k :: i <= k < end ==> !kinds[k].Statement?
    decreases end - i
  {
    if i == end then None else if kinds[i].Statement? then Some(i) else FirstStatement(kinds, i + 1, end)
  }

  predicate IsCode(kind: Kind) {
    kind.Statement? || kind.Continuation?
  }

  function LastCode(kinds: seq<Kind>, i: nat, end: nat): (l: Option<nat>)
    requires i <= end <= |kinds|
    ensures match l
            case Some(n) => i <= n < end && IsCode(kinds[n]) && forall k :: n < k < end ==> !IsCode(kinds[k])
            case None => forall k :: i <= k < end ==> !IsCode(kinds[k])
    decreases end - i
  {
    if i == end then None else if IsCode(kinds[end - 1]) then Some(end - 1) else LastCode(kinds, i, end - 1)
  }

  predicate MethodAt(lines: seq<Text>, kinds: seq<Kind>, name: Text, i: nat)
    requires i < |lines| == |kinds|
  {
    kinds[i] == Statement(|INDENT|) && |INDENT| <= |lines[i]| && StartsWith(lines[i][|INDENT|..], name)
  }

  predicate HasMethod(lines: seq<Text>, kinds: seq<Kind>, name: Text, i: nat, end: nat)
    requires i <= end <= |lines| == |kinds|
  {
    exists k :: i <= k < end && MethodAt(lines, kinds, name, k)
  }

  datatype Refusal = NotFollowed | NoBackend | MoreThanOne | OtherIndent | NoBody

  /** Which of the two methods the class has already, and where its body stops. */
  datatype Found = Found(read: bool, write: bool, last: nat) | Refused(why: Refusal)

  function Backend(lines: seq<Text>): (r: Found)
    ensures r.Found? ==> r.last < |lines|
  {
    match Scan(lines)
    case None => Refused(NotFollowed)
    case Some(kinds) =>
      var headers := Headers(lines, kinds, 0);
      if headers == [] then Refused(NoBackend)
      else if |headers| > 1 then Refused(MoreThanOne)
      else
        assert headers[0] in headers;
        var body, end := headers[0] + 1, NextTop(kinds, headers[0] + 1);
        match FirstStatement(kinds, body, end)
        case None => Refused(OtherIndent)
        case Some(f) =>
          if kinds[f].indent != |INDENT| || !StartsWith(lines[f], INDENT) then Refused(OtherIndent)
          else match LastCode(kinds, body, end)
            case None => Refused(NoBody)
            case Some(last) =>
              Found(HasMethod(lines, kinds, READ + "(", body, end), HasMethod(lines, kinds, WRITE + "(", body, end), last)
  }

  // ---- the fix ----

  predicate StartsLine(tail: Text) {
    tail != [] && (tail[0] == '\n' || tail[0] == '\r')
  }

  /** `text` with `ms` put in at `end`, on lines of their own. */
  function Spliced(ms: seq<Text>, text: Text, end: nat): (out: Text)
    requires end <= |text|
  {
    var head, tail := text[..end], text[end..];
    head + (if Ended(head) then [] else ['\n']) + Concat(ms)
      + (if tail != [] && !StartsLine(tail) then ['\n'] else []) + tail
  }

  function EndOf(lines: seq<Text>, last: nat): (end: nat)
    requires last < |lines|
    ensures end <= |Concat(lines)|
  {
    ConcatSplit(lines, last + 1);
    |Concat(lines[..last + 1])|
  }

  lemma ConcatSplit(lines: seq<Text>, n: nat)
    requires n <= |lines|
    ensures Concat(lines) == Concat(lines[..n]) + Concat(lines[n..])
  {
    ConcatAppend(lines[..n], lines[n..]);
    assert lines == lines[..n] + lines[n..];
  }

  predicate HasBoth(found: Found) {
    found.Found? && found.read && found.write
  }

  /** The fix, adding `ms`: refused when the class is not as it expects, or has not both methods then. */
  function FixOf(ms: seq<Text>, text: Text): (r: Option<Text>) {
    var b := Backend(Lines(text));
    if b.Refused? then None
    else
      LinesAre(text);
      FixAt(ms, text, EndOf(Lines(text), b.last))
  }

  function FixAt(ms: seq<Text>, text: Text, end: nat): (r: Option<Text>)
    requires end <= |text|
  {
    if HasBoth(Backend(Lines(Spliced(ms, text, end)))) then Some(Spliced(ms, text, end)) else None
  }

  method AddMethods(ms: seq<Text>, text: Text) returns (r: Option<Text>)
    ensures r == FixOf(ms, text)
  {
    hide Backend; hide Concat; hide Lines;
    var b := Backend(Lines(text));
    if b.Refused? { return None; }
    LinesAre(text);
    var end := EndOf(Lines(text), b.last);
    var head, tail := text[..end], text[end..];
    var out := head;
    if !Ended(head) { out := out + ['\n']; }
    out := out + Concat(ms);
    if tail != [] && !StartsLine(tail) { out := out + ['\n']; }
    out := out + tail;
    assert out == Spliced(ms, text, end);
    r := if HasBoth(Backend(Lines(out))) then Some(out) else None;
  }

  // ---- what the fix leaves ----

  /** The lines with their last one ended. */
  function Closed(lines: seq<Text>): (closed: seq<Text>)
    requires lines != []
    ensures |closed| == |lines|
  {
    var n := |lines| - 1;
    if Ended(lines[n]) then lines else lines[..n] + [lines[n] + ['\n']]
  }

  /** What goes in between. */
  function Block(ms: seq<Text>, rest: seq<Text>): (block: seq<Text>)
    ensures |block| >= |ms|
  {
    ms + if rest != [] && !StartsLine(rest[0]) then [['\n']] else []
  }

  function Fixed(ms: seq<Text>, lines: seq<Text>, last: nat): (fixed: seq<Text>)
    requires last < |lines|
  {
    Closed(lines[..last + 1]) + Block(ms, lines[last + 1..]) + lines[last + 1..]
  }

  lemma BlockLines(ms: seq<Text>, rest: seq<Text>, i: nat)
    requires Added(ms) && i < |Block(ms, rest)|
    ensures Inserted(Block(ms, rest)[i])
  {
    if i >= |ms| { BlankLine(); }
  }

  lemma PartLines(lines: seq<Text>, n: nat)
    requires AreLines(lines) && n <= |lines|
    ensures AreLines(lines[..n]) && AreLines(lines[n..]) && (n < |lines| && n > 0 ==> Ended(lines[n - 1]))
  {}

  lemma FixedAreLines(ms: seq<Text>, lines: seq<Text>, last: nat)
    requires Added(ms) && AreLines(lines) && last < |lines|
    ensures AreLines(Fixed(ms, lines, last))
  {
    hide Inserted; hide Block; hide Ended; hide IsLine;
    var a, c := lines[..last + 1], lines[last + 1..];
    PartLines(lines, last + 1);
    ClosedLines(a);
    var fixed, block := Fixed(ms, lines, last), Block(ms, c);
    forall i | 0 <= i < |fixed| ensures IsLine(fixed[i]) && (i < |fixed| - 1 ==> Ended(fixed[i])) {
      if i <= last {
        assert fixed[i] == Closed(a)[i];
      } else if i < last + 1 + |block| {
        assert fixed[i] == block[i - (last + 1)];
        BlockLines(ms, c, i - (last + 1));
        InsertedLine(fixed[i]);
      } else {
        assert fixed[i] == c[i - (last + 1) - |block|];
      }
    }
  }

  lemma InsertedLine(l: Text)
    requires Inserted(l)
    ensures IsLine(l) && Ended(l)
  {}

  lemma ClosedLines(a: seq<Text>)
    requires AreLines(a) && a != []
    ensures forall i :: 0 <= i < |a| ==> IsLine(Closed(a)[i]) && Ended(Closed(a)[i])
  {}

  lemma ClosedText(a: seq<Text>)
    requires AreLines(a) && a != []
    ensures Concat(Closed(a)) == Concat(a) + if Ended(Concat(a)) then [] else ['\n']
  {
    var n := |a| - 1;
    hide Concat;
    assert a == a[..n] + [a[n]] && a[n] != [];
    ConcatOne(a[..n], a[n]);
    assert Ended(Concat(a)) <==> Ended(a[n]);
    ConcatOne(a[..n], a[n] + ['\n']);
    AppendAssociates(Concat(a[..n]), a[n], ['\n']);
  }

  lemma TailText(c: seq<Text>)
    requires AreLines(c)
    ensures Concat(c) == [] <==> c == []
    ensures c != [] ==> StartsLine(Concat(c)) == StartsLine(c[0])
  {
    if c != [] { assert Concat(c)[0] == c[0][0]; }
  }

  lemma BlockText(ms: seq<Text>, rest: seq<Text>)
    ensures Concat(Block(ms, rest)) == Concat(ms) + if rest != [] && !StartsLine(rest[0]) then ['\n'] else []
  {
   
    if rest != [] && !StartsLine(rest[0]) {
      ConcatOne(ms, ['\n']);
    } else {
      assert ms + [] == ms;
    }
  }

  /** The text the fix makes is made of those lines. */
  lemma SplicedLines(ms: seq<Text>, text: Text, last: nat)
    requires Added(ms) && last < |Lines(text)|
    ensures Concat(Lines(text)) == text && AreLines(Fixed(ms, Lines(text), last))
    ensures Lines(Spliced(ms, text, EndOf(Lines(text), last))) == Fixed(ms, Lines(text), last)
  {
    hide Lines; hide Concat; hide AreLines; hide Block; hide Closed; hide Inserted; hide Added; hide Ended;
    LinesAre(text);
    var lines := Lines(text);
    var a, c := lines[..last + 1], lines[last + 1..];
    ConcatSplit(lines, last + 1);
    FixedAreLines(ms, lines, last);
    LinesOf(Fixed(ms, lines, last));
    PartLines(lines, last + 1);
    ClosedText(a);
    TailText(c);
    ConcatAppend(Closed(a) + Block(ms, c), c);
    ConcatAppend(Closed(a), Block(ms, c));
    BlockText(ms, c);
    assert text[..EndOf(lines, last)] == Concat(a) && text[EndOf(lines, last)..] == Concat(c);
    assert Spliced(ms, text, EndOf(lines, last)) == Concat(Fixed(ms, lines, last));
  }

  // ---- what each line is then ----

  /** A scanner at rest is at rest behind the lines, the last of them ended too. */
  lemma ClosedScan(a: seq<Text>, kinds: seq<Kind>)
    requires AreLines(a) && a != [] && ScanLines(a, NEUTRAL) == Some((kinds, NEUTRAL))
    ensures ScanLines(Closed(a), NEUTRAL) == Some((kinds, NEUTRAL))
  {
    hide ScanLine; hide KindOf;
    var n := |a| - 1;
    if !Ended(a[n]) {
      var first, last := a[..n], a[n];
      assert a == first + [last];
      ScanAppend(first, [last], NEUTRAL);
      ScanAppend(first, [last + ['\n']], NEUTRAL);
      LinesQuotes(first, NEUTRAL);
      LastEnded(last, ScanLines(first, NEUTRAL).value.1);
    }
  }

  lemma LastEnded(line: Text, st: State)
    requires IsLine(line) && !Ended(line) && ScanLines([line], st).Some? && ScanLines([line], st).value.1 == NEUTRAL
    requires st.triple.Some? ==> IsQuote(st.triple.value)
    ensures ScanLines([line + ['\n']], st) == ScanLines([line], st)
  {
    var now := st.(continued := false);
    assert [line][1..] == [] && [line + ['\n']][1..] == [];
    NewlineKeeps(line, 0, now);
    IndentNewline(line, 0);
    BlankNewline(line, Indent(line, 0));
    hide ScanFrom; hide Indent; hide IsBlank;
    assert KindOf(line + ['\n'], st) == KindOf(line, st);
  }

  lemma {:induction false} IndentNewline(line: Text, i: nat)
    requires i <= |line|
    ensures Indent(line + ['\n'], i) == Indent(line, i)
    decreases |line| - i
  {
    if i < |line| { IndentNewline(line, i + 1); }
  }

  function KindsAtRest(lines: seq<Text>): (kinds: seq<Kind>)
    ensures |kinds| == |lines|
  {
    seq(|lines|, i requires 0 <= i < |lines| => KindOf(lines[i], NEUTRAL))
  }

  lemma {:induction false} InsertedScan(lines: seq<Text>)
    requires forall i :: 0 <= i < |lines| ==> Inserted(lines[i])
    ensures ScanLines(lines, NEUTRAL) == Some((KindsAtRest(lines), NEUTRAL))
    decreases |lines|
  {
    hide KindOf; hide ScanLine;
    if lines != [] {
      InsertedScan(lines[1..]);
      assert KindsAtRest(lines) == [KindOf(lines[0], NEUTRAL)] + KindsAtRest(lines[1..]);
    } else {
      assert KindsAtRest(lines) == [];
    }
  }

  /** Every other line is what it was. */
  lemma FixedScan(ms: seq<Text>, lines: seq<Text>, last: nat, kinds: seq<Kind>)
    requires Added(ms) && AreLines(lines) && Scan(lines) == Some(kinds) && last < |lines|
    requires last + 1 < |lines| ==> !kinds[last + 1].Continuation?
    ensures Scan(Fixed(ms, lines, last)) == Some(kinds[..last + 1] + KindsAtRest(Block(ms, lines[last + 1..])) + kinds[last + 1..])
  {
    var n := last + 1;
    var a, c := lines[..n], lines[n..];
    hide Block; hide KindsAtRest; hide AreLines; hide Closed;
    RestsBefore(lines, n, kinds);
    PartLines(lines, n);
    ClosedScan(a, kinds[..n]);
    forall i | 0 <= i < |Block(ms, c)| ensures Inserted(Block(ms, c)[i]) { BlockLines(ms, c, i); }
    InsertedScan(Block(ms, c));
    hide ScanLines; hide Inserted;
    ScanAppend(Closed(a), Block(ms, c), NEUTRAL);
    ScanAppend(Closed(a) + Block(ms, c), c, NEUTRAL);
  }

  // ---- the class then ----

  /** What makes a class one the fix knows: its one header, and its first statement, indented as a method is. */
  predicate Known(lines: seq<Text>, kinds: seq<Kind>, h: nat, f: nat) {
    && |lines| == |kinds| && h < f < |lines|
    && (forall i :: 0 <= i < |lines| ==> (HeaderAt(lines, kinds, i) <==> i == h))
    && (forall i :: h < i <= f ==> kinds[i] != Statement(0)) && kinds[f] == Statement(|INDENT|)
    && (forall i :: h < i < f ==> !kinds[i].Statement?) && StartsWith(lines[f], INDENT)
  }

  lemma OneHeader(lines: seq<Text>, kinds: seq<Kind>, h: nat)
    requires h < |lines| == |kinds| && forall i :: 0 <= i < |lines| ==> (HeaderAt(lines, kinds, i) <==> i == h)
    ensures Headers(lines, kinds, 0) == [h]
  {
    var hs := Headers(lines, kinds, 0);
    hide HeaderAt; hide Headers;
    assert h in hs;
    assert hs == [hs[0]];
  }

  /** A class so made is found, its body as far as the module's next statement. */
  lemma FoundIf(lines: seq<Text>, kinds: seq<Kind>, h: nat, f: nat)
    requires Scan(lines) == Some(kinds) && Known(lines, kinds, h, f)
    ensures var end := NextTop(kinds, h + 1);
      && f < end && LastCode(kinds, h + 1, end).Some?
      && Backend(lines) == Found(HasMethod(lines, kinds, READ + "(", h + 1, end), HasMethod(lines, kinds, WRITE + "(", h + 1, end),
                                 LastCode(kinds, h + 1, end).value)
  {
    hide Scan; hide HeaderAt; hide HasMethod; hide Headers; hide NextTop; hide FirstStatement; hide LastCode;
    OneHeader(lines, kinds, h);
    var end := NextTop(kinds, h + 1);
    assert f < end;
    assert FirstStatement(kinds, h + 1, end) == Some(f);
    assert IsCode(kinds[f]);
  }

  /** And a class found is so made. */
  lemma FoundIs(lines: seq<Text>) returns (kinds: seq<Kind>, h: nat, f: nat)
    requires Backend(lines).Found?
    ensures Scan(lines) == Some(kinds) && Known(lines, kinds, h, f)
    ensures h < f <= Backend(lines).last < NextTop(kinds, h + 1)
    ensures forall i :: Backend(lines).last < i < NextTop(kinds, h + 1) ==> !IsCode(kinds[i])
  {
    hide Scan; hide HeaderAt; hide HasMethod; hide Headers; hide NextTop; hide FirstStatement; hide LastCode;
    kinds := Scan(lines).value;
    var hs := Headers(lines, kinds, 0);
    h := hs[0];
    assert forall i :: i in hs ==> i == h;
    assert h in hs;
    var end := NextTop(kinds, h + 1);
    f := FirstStatement(kinds, h + 1, end).value;
    assert IsCode(kinds[f]);
  }

  /** The line behind the last of the class's code carries nothing on. */
  lemma BehindLast(kinds: seq<Kind>, h: nat, last: nat)
    requires h < |kinds| && h < last < NextTop(kinds, h + 1) && forall i :: last < i < NextTop(kinds, h + 1) ==> !IsCode(kinds[i])
    ensures last + 1 < |kinds| ==> !kinds[last + 1].Continuation?
  {
    hide NextTop;
  }

  /** Putting the methods in leaves the class one the fix knows, both of them in its body. */
  lemma FixedKnown(ms: seq<Text>, lines: seq<Text>, kinds: seq<Kind>, h: nat, f: nat, last: nat, after: seq<Kind>)
    requires Added(ms) && AreLines(lines) && Known(lines, kinds, h, f) && f <= last < NextTop(kinds, h + 1)
    requires after == kinds[..last + 1] + KindsAtRest(Block(ms, lines[last + 1..])) + kinds[last + 1..]
    ensures Known(Fixed(ms, lines, last), after, h, f)
  {
    var n, fixed, block := last + 1, Fixed(ms, lines, last), Block(ms, lines[last + 1..]);
    hide Block; hide AreLines; hide IsHeader; hide Inserted; hide NextTop;
    forall i | 0 <= i < |fixed| ensures HeaderAt(fixed, after, i) <==> i == h {
      if i < n {
        assert after[i] == kinds[i] && (i < last ==> fixed[i] == lines[i]);
        assert i < last ==> (HeaderAt(lines, kinds, i) <==> i == h);
      } else if i < n + |block| {
        assert after[i] == KindOf(block[i - n], NEUTRAL);
        BlockLines(ms, lines[n..], i - n);
        InsertedKind(block[i - n]);
      } else {
        var j := i - |block|;
        assert after[i] == kinds[j] && fixed[i] == lines[j];
        assert HeaderAt(lines, kinds, j) <==> j == h;
      }
    }
    assert forall i :: h < i <= f ==> after[i] == kinds[i];
    ClosedStarts(lines[..n], f);
    assert fixed[f] == Closed(lines[..n])[f];
  }

  lemma InsertedKind(l: Text)
    requires Inserted(l)
    ensures KindOf(l, NEUTRAL) != Statement(0)
  {}

  lemma ClosedStarts(a: seq<Text>, f: nat)
    requires f < |a| && StartsWith(a[f], INDENT)
    ensures StartsWith(Closed(a)[f], INDENT)
  {}

  /** What the lines are then, those put in among them. */
  lemma AfterAt(ms: seq<Text>, lines: seq<Text>, kinds: seq<Kind>, last: nat, after: seq<Kind>)
    requires Added(ms) && |lines| == |kinds| && last < |lines|
    requires after == kinds[..last + 1] + KindsAtRest(Block(ms, lines[last + 1..])) + kinds[last + 1..]
    ensures |Fixed(ms, lines, last)| == |after| == |kinds| + |Block(ms, lines[last + 1..])|
    ensures forall i :: 0 <= i <= last ==> after[i] == kinds[i]
    ensures var n, block := last + 1, Block(ms, lines[last + 1..]);
      forall i :: n <= i < n + |block| ==>
        Fixed(ms, lines, last)[i] == block[i - n] && after[i] == KindOf(block[i - n], NEUTRAL) && after[i] != Statement(0)
  {
    var n, block := last + 1, Block(ms, lines[last + 1..]);
    hide Block; hide Inserted; hide KindOf;
    forall i | n <= i < n + |block|
      ensures Fixed(ms, lines, last)[i] == block[i - n] && after[i] == KindOf(block[i - n], NEUTRAL) && after[i] != Statement(0)
    {
      BlockLines(ms, lines[n..], i - n);
      InsertedKind(block[i - n]);
    }
  }

  /** Where the class ends then. */
  lemma FixedEnd(ms: seq<Text>, lines: seq<Text>, kinds: seq<Kind>, h: nat, last: nat, after: seq<Kind>)
    requires Added(ms) && |lines| == |kinds| && h < |kinds| && h < last < NextTop(kinds, h + 1)
    requires after == kinds[..last + 1] + KindsAtRest(Block(ms, lines[last + 1..])) + kinds[last + 1..]
    ensures last + 1 + |ms| <= |after| && last + 1 + |ms| <= NextTop(after, h + 1)
  {
    hide Block; hide KindsAtRest; hide NextTop; hide KindOf;
    AfterAt(ms, lines, kinds, last, after);
    var end := NextTop(after, h + 1);
    assert end < |after| ==> after[end] == Statement(0);
  }

  /** Both methods are in the class then. */
  lemma FixedMethods(ms: seq<Text>, lines: seq<Text>, kinds: seq<Kind>, last: nat, after: seq<Kind>, from: nat, end: nat)
    requires Added(ms) && |lines| == |kinds| && last < |lines| && from <= last + 1 && last + 1 + |ms| <= end <= |after|
    requires after == kinds[..last + 1] + KindsAtRest(Block(ms, lines[last + 1..])) + kinds[last + 1..]
    ensures |Fixed(ms, lines, last)| == |after|
    ensures HasMethod(Fixed(ms, lines, last), after, READ + "(", from, end) && HasMethod(Fixed(ms, lines, last), after, WRITE + "(", from, end)
  {
    hide Fixed; hide HasMethod; hide Inserted; hide KindOf; hide KindsAtRest;
    var n := last + 1;
    AfterAt(ms, lines, kinds, last, after);
    var r :| 0 <= r < |ms| && Defines(ms[r], READ);
    var w :| 0 <= w < |ms| && Defines(ms[w], WRITE);
    assert Block(ms, lines[n..])[r] == ms[r] && Block(ms, lines[n..])[w] == ms[w];
    hide Block; hide Added;
    MethodIn(Fixed(ms, lines, last), after, READ + "(", n + r, from, end);
    MethodIn(Fixed(ms, lines, last), after, WRITE + "(", n + w, from, end);
  }

  lemma MethodIn(lines: seq<Text>, kinds: seq<Kind>, name: Text, k: nat, from: nat, end: nat)
    requires from <= k < end <= |lines| == |kinds| && kinds[k] == Statement(4) && Begins(lines[k], 4, name)
    ensures HasMethod(lines, kinds, name, from, end)
  {
    assert lines[k][4..][..|name|] == lines[k][4..4 + |name|];
    assert MethodAt(lines, kinds, name, k);
  }

  /**
   * Wherever the class is found, the fix succeeds with any block that can be added: both methods are in the class
   * then, and every other line of the module is there still, and is what it was.
   */
  lemma FixSucceeds(ms: seq<Text>, text: Text)
    requires Added(ms) && Backend(Lines(text)).Found?
    ensures FixOf(ms, text).Some?
    ensures var lines, last := Lines(text), Backend(Lines(text)).last;
      && Scan(lines).Some? && last < |Scan(lines).value| == |lines| && Lines(FixOf(ms, text).value) == Fixed(ms, lines, last)
      && var kinds := Scan(lines).value;
         Scan(Fixed(ms, lines, last)) == Some(kinds[..last + 1] + KindsAtRest(Block(ms, lines[last + 1..])) + kinds[last + 1..])
  {
    hide *;
    var lines := Lines(text);
    var last := Backend(lines).last;
    var kinds, h, f := FoundIs(lines);
    LinesAre(text);
    BehindLast(kinds, h, last);
    FixedScan(ms, lines, last, kinds);
    var after := kinds[..last + 1] + KindsAtRest(Block(ms, lines[last + 1..])) + kinds[last + 1..];
    FixedKnown(ms, lines, kinds, h, f, last, after);
    FoundIf(Fixed(ms, lines, last), after, h, f);
    FixedEnd(ms, lines, kinds, h, last, after);
    FixedMethods(ms, lines, kinds, last, after, h + 1, NextTop(after, h + 1));
    SplicedLines(ms, text, last);
    FixOfIs(ms, text);
    FixAtIs(ms, text, EndOf(lines, last));
  }

  lemma FixOfIs(ms: seq<Text>, text: Text)
    requires Backend(Lines(text)).Found?
    ensures var end := EndOf(Lines(text), Backend(Lines(text)).last); end <= |text| && FixOf(ms, text) == FixAt(ms, text, end)
  {
    hide Backend; hide EndOf; hide FixAt; hide Lines;
    LinesAre(text);
  }

  lemma FixAtIs(ms: seq<Text>, text: Text, end: nat)
    requires end <= |text|
    requires var after := Backend(Lines(Spliced(ms, text, end))); after.Found? && after.read && after.write
    ensures FixAt(ms, text, end) == Some(Spliced(ms, text, end))
  {
    hide Spliced; hide Backend; hide Lines;
  }
}
