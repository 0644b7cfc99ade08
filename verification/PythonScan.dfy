/** A scanner that follows Python source well enough to tell which of its lines begin a statement. */
module PythonScan {
  import opened Bytes

  type Text = seq<char>

  /** What a line is: indented by so much, if it begins a statement. */
  datatype Kind = Blank | Comment | Statement(indent: nat) | Continuation

  /** Open brackets, the quote of an open triple-quoted string, and whether a backslash carries the line on. */
  datatype State = State(depth: nat, triple: Option<char>, continued: bool)

  const NEUTRAL := State(0, None, false)

  predicate IsSpace(c: char) {
    || '\t' <= c <= '\r' || c == ' ' || c == '\U{85}' || c == '\U{A0}' || c == '\U{1680}' || '\U{2000}' <= c <= '\U{200A}'
    || c == '\U{2028}' || c == '\U{2029}' || c == '\U{202F}' || c == '\U{205F}' || c == '\U{3000}'
  }

  predicate IsBlank(line: Text, i: nat)
    decreases |line| - i
  {
    i < |line| ==> IsSpace(line[i]) && IsBlank(line, i + 1)
  }

  function Indent(line: Text, i: nat): (n: nat)
    requires i <= |line|
    ensures i <= n <= |line|
    decreases |line| - i
  {
    if i < |line| && (line[i] == ' ' || line[i] == '\t') then Indent(line, i + 1) else i
  }

  function KindOf(line: Text, st: State): (kind: Kind) {
    var n := Indent(line, 0);
    if st.triple.Some? || st.depth > 0 || st.continued then Continuation
    else if IsBlank(line, n) then Blank
    else if line[n] == '#' then Comment
    else Statement(n)
  }

  predicate IsTriple(line: Text, i: nat, q: char) {
    i + 3 <= |line| && line[i] == q && line[i + 1] == q && line[i + 2] == q
  }

  /** The quote that closes a string, looked for from `i` on. */
  function Closing(line: Text, i: nat, q: char): (r: Option<nat>)
    ensures r.Some? ==> i <= r.value < |line|
    decreases |line| - i
  {
    if i >= |line| || line[i] == '\n' then None
    else if line[i] == '\\' then Closing(line, i + 2, q)
    else if line[i] == q then Some(i)
    else Closing(line, i + 1, q)
  }

  predicate IsOpen(c: char) {
    c == '(' || c == '[' || c == '{'
  }

  predicate IsClose(c: char) {
    c == ')' || c == ']' || c == '}'
  }

  predicate IsQuote(c: char) {
    c == '"' || c == '\''
  }

  /** The rest of a line, from `i` on. */
  function ScanFrom(line: Text, i: nat, st: State): (r: Option<State>)
    decreases |line| - i
  {
    if i >= |line| then Some(st)
    else if st.triple.Some? then
      if line[i] == '\\' then ScanFrom(line, i + 2, st)
      else if IsTriple(line, i, st.triple.value) then ScanFrom(line, i + 3, st.(triple := None))
      else ScanFrom(line, i + 1, st)
    else if line[i] == '#' then Some(st)
    else if IsOpen(line[i]) then ScanFrom(line, i + 1, st.(depth := st.depth + 1))
    else if IsClose(line[i]) then
      if st.depth == 0 then None else ScanFrom(line, i + 1, st.(depth := st.depth - 1))
    else if line[i] == '\\' && IsBlank(line, i + 1) then ScanFrom(line, i + 1, st.(continued := true))
    else if IsQuote(line[i]) then
      if IsTriple(line, i, line[i]) then ScanFrom(line, i + 3, st.(triple := Some(line[i])))
      else match Closing(line, i + 1, line[i])
        case None => None
        case Some(j) => ScanFrom(line, j + 1, st)
    else ScanFrom(line, i + 1, st)
  }

  function ScanLine(line: Text, st: State): (r: Option<State>) {
    ScanFrom(line, 0, st.(continued := false))
  }

  /** Line after line: what each is, and what is left open. */
  function ScanLines(lines: seq<Text>, st: State): (r: Option<(seq<Kind>, State)>)
    ensures r.Some? ==> |r.value.0| == |lines|
    decreases |lines|
  {
    if lines == [] then Some(([], st))
    else match ScanLine(lines[0], st)
      case None => None
      case Some(next) =>
        match ScanLines(lines[1..], next)
        case None => None
        case Some((kinds, end)) => Some(([KindOf(lines[0], st)] + kinds, end))
  }

  /** What each line of a module is: nothing, if a string or a bracket is left open or closed with none open. */
  function Scan(lines: seq<Text>): (kinds: Option<seq<Kind>>)
    ensures kinds.Some? ==> |kinds.value| == |lines|
  {
    match ScanLines(lines, NEUTRAL)
    case Some((kinds, end)) => if end == NEUTRAL then Some(kinds) else None
    case None => None
  }

  // ---- the scanner's loops ----

  method ScanText(lines: seq<Text>) returns (kinds: Option<seq<Kind>>)
    ensures kinds == Scan(lines)
  {
    hide ScanLine; hide KindOf;
    var st, out := NEUTRAL, [];
    assert lines[0..] == lines;
    if ScanLines(lines, NEUTRAL).Some? { assert [] + ScanLines(lines, NEUTRAL).value.0 == ScanLines(lines, NEUTRAL).value.0; }
    for k := 0 to |lines|
      invariant match ScanLines(lines[k..], st)
                case None => ScanLines(lines, NEUTRAL) == None
                case Some((rest, end)) => ScanLines(lines, NEUTRAL) == Some((out + rest, end))
    {
      assert lines[k..][1..] == lines[k + 1..];
      if ScanLines(lines[k..], st).Some? {
        AppendAssociates(out, [KindOf(lines[k], st)], ScanLines(lines[k + 1..], ScanLine(lines[k], st).value).value.0);
      }
      out := out + [KindOf(lines[k], st)];
      var next := ScanOne(lines[k], st);
      if next == None { return None; }
      st := next.value;
    }
    assert out + [] == out;
    kinds := if st == NEUTRAL then Some(out) else None;
  }

  method ScanOne(line: Text, st: State) returns (r: Option<State>)
    ensures r == ScanLine(line, st)
  {
    var now := st.(continued := false);
    var i := 0;
    while i < |line|
      invariant ScanFrom(line, i, now) == ScanLine(line, st)
      decreases |line| - i
    {
      var c := line[i];
      if now.triple.Some? {
        if c == '\\' {
          i := i + 2;
        } else if IsTriple(line, i, now.triple.value) {
          now, i := now.(triple := None), i + 3;
        } else {
          i := i + 1;
        }
        continue;
      }
      if c == '#' { return Some(now); }
      if IsOpen(c) {
        now := now.(depth := now.depth + 1);
      } else if IsClose(c) {
        if now.depth == 0 { return None; }
        now := now.(depth := now.depth - 1);
      } else if c == '\\' && IsBlank(line, i + 1) {
        now := now.(continued := true);
      } else if IsQuote(c) {
        if IsTriple(line, i, c) {
          now, i := now.(triple := Some(c)), i + 2;
        } else {
          var close := ToClosing(line, i, c);
          if close == None { return None; }
          i := close.value;
        }
      }
      i := i + 1;
    }
    r := Some(now);
  }

  /** From the quote at `i` to the one that closes it. */
  method ToClosing(line: Text, i: nat, q: char) returns (r: Option<nat>)
    requires i < |line|
    ensures r == Closing(line, i + 1, q)
  {
    var j := i;
    while true
      invariant j >= i && Closing(line, j + 1, q) == Closing(line, i + 1, q)
      decreases |line| - j
    {
      j := j + 1;
      if j >= |line| || line[j] == '\n' { return None; }
      if line[j] == '\\' {
        j := j + 1;
      } else if line[j] == q {
        return Some(j);
      }
    }
  }

  // ---- composition ----

  /** Lines are what they are whatever follows, and what follows is only told what they leave open. */
  lemma {:induction false} ScanAppend(a: seq<Text>, b: seq<Text>, st: State)
    ensures match ScanLines(a, st)
            case None => ScanLines(a + b, st) == None
            case Some((kinds, mid)) =>
              match ScanLines(b, mid)
              case None => ScanLines(a + b, st) == None
              case Some((more, end)) => ScanLines(a + b, st) == Some((kinds + more, end))
    decreases |a|
  {
    hide ScanLine; hide KindOf;
    if a == [] {
      assert a + b == b;
      assert forall more: seq<Kind> :: [] + more == more;
    } else {
      assert (a + b)[1..] == a[1..] + b;
      if ScanLine(a[0], st).Some? {
        ScanAppend(a[1..], b, ScanLine(a[0], st).value);
        assert forall k: Kind, kinds: seq<Kind>, more: seq<Kind> :: [k] + (kinds + more) == [k] + kinds + more;
      }
    }
  }

  /** A line with what opens it closed, and no newline, is the same with one. */
  lemma {:induction false} NewlineKeeps(line: Text, i: nat, st: State)
    requires '\n' !in line && (st.triple.Some? ==> IsQuote(st.triple.value))
    requires ScanFrom(line, i, st).Some? && ScanFrom(line, i, st).value.triple == None
    ensures ScanFrom(line + ['\n'], i, st) == ScanFrom(line, i, st)
    decreases |line| - i
  {
    var more := line + ['\n'];
    if i < |line| {
      BlankNewline(line, i + 1);
      if st.triple.Some? {
        if line[i] == '\\' { NewlineKeeps(line, i + 2, st); }
        else if IsTriple(line, i, st.triple.value) { NewlineKeeps(line, i + 3, st.(triple := None)); }
        else { NewlineKeeps(line, i + 1, st); }
      } else if line[i] == '#' {
      } else if IsOpen(line[i]) { NewlineKeeps(line, i + 1, st.(depth := st.depth + 1)); }
      else if IsClose(line[i]) { NewlineKeeps(line, i + 1, st.(depth := st.depth - 1)); }
      else if line[i] == '\\' && IsBlank(line, i + 1) { NewlineKeeps(line, i + 1, st.(continued := true)); }
      else if IsQuote(line[i]) {
        if IsTriple(line, i, line[i]) { NewlineKeeps(line, i + 3, st.(triple := Some(line[i]))); }
        else {
          ClosingNewline(line, i + 1, line[i]);
          NewlineKeeps(line, Closing(line, i + 1, line[i]).value + 1, st);
        }
      } else { NewlineKeeps(line, i + 1, st); }
    }
  }

  lemma {:induction false} BlankNewline(line: Text, i: nat)
    ensures IsBlank(line + ['\n'], i) == IsBlank(line, i)
    decreases |line| - i
  {
    if i < |line| { BlankNewline(line, i + 1); }
  }

  lemma {:induction false} ClosingNewline(line: Text, i: nat, q: char)
    requires Closing(line, i, q).Some?
    ensures Closing(line + ['\n'], i, q) == Closing(line, i, q)
    decreases |line| - i
  {
    if line[i] == '\\' { ClosingNewline(line, i + 2, q); }
    else if line[i] != q { ClosingNewline(line, i + 1, q); }
  }

  /** Only a quote is ever left open. */
  lemma {:induction false} ScanQuotes(line: Text, i: nat, st: State)
    requires (st.triple.Some? ==> IsQuote(st.triple.value)) && ScanFrom(line, i, st).Some?
    ensures var end := ScanFrom(line, i, st).value; end.triple.Some? ==> IsQuote(end.triple.value)
    decreases |line| - i
  {
    if i < |line| {
      if st.triple.Some? {
        if line[i] == '\\' { ScanQuotes(line, i + 2, st); }
        else if IsTriple(line, i, st.triple.value) { ScanQuotes(line, i + 3, st.(triple := None)); }
        else { ScanQuotes(line, i + 1, st); }
      } else if line[i] == '#' {
      } else if IsOpen(line[i]) { ScanQuotes(line, i + 1, st.(depth := st.depth + 1)); }
      else if IsClose(line[i]) { ScanQuotes(line, i + 1, st.(depth := st.depth - 1)); }
      else if line[i] == '\\' && IsBlank(line, i + 1) { ScanQuotes(line, i + 1, st.(continued := true)); }
      else if IsQuote(line[i]) {
        if IsTriple(line, i, line[i]) { ScanQuotes(line, i + 3, st.(triple := Some(line[i]))); }
        else { ScanQuotes(line, Closing(line, i + 1, line[i]).value + 1, st); }
      } else { ScanQuotes(line, i + 1, st); }
    }
  }

  lemma {:induction false} LinesQuotes(lines: seq<Text>, st: State)
    requires (st.triple.Some? ==> IsQuote(st.triple.value)) && ScanLines(lines, st).Some?
    ensures var end := ScanLines(lines, st).value.1; end.triple.Some? ==> IsQuote(end.triple.value)
    decreases |lines|
  {
    hide KindOf;
    if lines != [] {
      ScanQuotes(lines[0], 0, st.(continued := false));
      LinesQuotes(lines[1..], ScanLine(lines[0], st).value);
    }
  }

  /** A scanner is at rest before any line that does not carry another on. */
  lemma RestsBefore(lines: seq<Text>, n: nat, kinds: seq<Kind>)
    requires Scan(lines) == Some(kinds) && n <= |lines| && (n < |lines| ==> !kinds[n].Continuation?)
    ensures ScanLines(lines[..n], NEUTRAL) == Some((kinds[..n], NEUTRAL))
    ensures ScanLines(lines[n..], NEUTRAL) == Some((kinds[n..], NEUTRAL))
  {
    hide ScanLine;
    ScanAppend(lines[..n], lines[n..], NEUTRAL);
    assert lines[..n] + lines[n..] == lines;
    var (before, mid) := ScanLines(lines[..n], NEUTRAL).value;
    var (after, end) := ScanLines(lines[n..], mid).value;
    assert kinds == before + after && kinds[..n] == before && kinds[n..] == after;
    if n < |lines| { assert kinds[n] == after[0] == KindOf(lines[n], mid); }
  }
}
