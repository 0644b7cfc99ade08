/** Lines that can be added to a class: each is to a scanner at rest a line of its own, and leaves it at rest. */
module ClientMethods {
  import opened Bytes
  import opened PythonScan

  /** A line of its own: at rest before it and behind it, and nothing of the module itself. */
  predicate Inserted(l: Text) {
    && l != [] && (forall k :: 0 <= k < |l| - 1 ==> l[k] != '\n') && l[|l| - 1] == '\n'
    && ScanLine(l, NEUTRAL) == Some(NEUTRAL) && KindOf(l, NEUTRAL) != Statement(0)
  }

  predicate Begins(l: Text, n: nat, name: Text) {
    n + |name| <= |l| && l[n..n + |name|] == name
  }

  const READ: Text := "def " + "read_" + "bytestring"
  const WRITE: Text := "def " + "write_" + "bytestring"

  /** A line that begins the method `name` of a class. */
  predicate Defines(l: Text, name: Text) {
    KindOf(l, NEUTRAL) == Statement(4) && Begins(l, 4, name + "(")
  }

  /** A block that can be added: lines of their own, one beginning each of the two methods. */
  ghost predicate Added(ms: seq<Text>) {
    && (forall i :: 0 <= i < |ms| ==> Inserted(ms[i]))
    && (exists i :: 0 <= i < |ms| && Defines(ms[i], READ)) && (exists i :: 0 <= i < |ms| && Defines(ms[i], WRITE))
  }

  lemma BlankLine()
    ensures Inserted(['\n'])
  {
    var l: Text := ['\n'];
    assert Indent(l, 0) == 0 && IsBlank(l, 1) && IsBlank(l, 0);
    assert ScanFrom(l, 0, NEUTRAL) == ScanFrom(l, 1, NEUTRAL);
  }

  // ---- a block of that kind ----

  /** A character that opens, closes and quotes nothing. */
  predicate IsPlain(c: char) {
    'a' <= c <= 'z' || c == ' ' || c == '_' || c == ':'
  }

  predicate PlainFrom(t: Text, i: nat)
    decreases |t| - i
  {
    i < |t| ==> IsPlain(t[i]) && PlainFrom(t, i + 1)
  }

  lemma {:induction false} PlainScan(line: Text, t: Text, i: nat, k: nat, st: State)
    requires k <= |t| && i + |t| <= |line| && line[i..i + |t|] == t && PlainFrom(t, k) && st.triple == None
    ensures ScanFrom(line, i + k, st) == ScanFrom(line, i + |t|, st) && forall j :: k <= j < |t| ==> IsPlain(t[j])
    decreases |t| - k
  {
    if k < |t| {
      assert line[i + k] == line[i..i + |t|][k];
      PlainScan(line, t, i, k + 1, st);
    }
  }

  const TAIL: Text := "(" + "self" + ")" + ": pass" + "\n"

  /** One method in one line. */
  function OneLiner(name: Text): (l: Text) {
    "    " + name + TAIL
  }

  predicate IsTail(t: Text) {
    && |t| == 13 && t[0] == '(' && t[1..5] == "self" && t[5] == ')' && t[6..12] == ": pass" && t[12] == '\n'
    && forall k :: 0 <= k < 12 ==> t[k] != '\n'
  }

  lemma TailIs()
    ensures IsTail(TAIL)
  {}

  /** What stands where in a line made of three parts. */
  lemma ThreeParts(a: Text, b: Text, c: Text)
    ensures var l := a + b + c;
      && l[..|a|] == a && l[|a|..|a| + |b|] == b && l[|a| + |b|..] == c
      && (c != [] ==> l[|a|..|a| + |b| + 1] == b + [c[0]])
  {}

  lemma PartOf(l: Text, at: nat, c: Text, from: nat, to: nat)
    requires at + |c| == |l| && l[at..] == c && from <= to <= |c|
    ensures l[at + from..at + to] == c[from..to] && forall k :: from <= k < to ==> c[k] == l[at + k]
  {
    forall k | from <= k < to ensures l[at + k] == c[k] { assert l[at..][k] == l[at + k]; }
  }

  lemma OneLinerDefines(name: Text)
    requires name != [] && name[0] != ' ' && PlainFrom(name, 0)
    ensures Inserted(OneLiner(name)) && Defines(OneLiner(name), name)
  {
    TailIs();
    LineDefines(name, TAIL);
  }

  lemma LineDefines(name: Text, tail: Text)
    requires name != [] && name[0] != ' ' && PlainFrom(name, 0) && IsTail(tail)
    ensures Inserted("    " + name + tail) && Defines("    " + name + tail, name)
  {
    var l, n := "    " + name + tail, |name|;
    ThreeParts("    ", name, tail);
    LineRests(l, name, tail);
    hide ScanLine; hide PlainFrom; hide Indent; hide IsBlank;
    forall k | 0 <= k < 4 ensures l[k] == ' ' { assert l[..4][k] == l[k]; }
    assert l[4] == l[4..4 + n][0];
    OneLinerKind(l);
    PartOf(l, 4 + n, tail, 0, 13);
    hide KindOf;
    forall k | 0 <= k < |l| - 1 ensures l[k] != '\n' {
      if 4 <= k < 4 + n { assert l[k] == l[4..4 + n][k - 4]; }
      if k >= 4 + n { assert l[4 + n + (k - 4 - n)] == tail[k - 4 - n]; }
    }
  }

  /** Everything the line opens it closes. */
  lemma LineRests(l: Text, name: Text, tail: Text)
    requires |l| == 17 + |name| && l[0..4] == "    " && l[4..4 + |name|] == name && IsTail(tail) && l[4 + |name|..] == tail
    requires PlainFrom(name, 0)
    ensures ScanLine(l, NEUTRAL) == Some(NEUTRAL) && (forall j :: 0 <= j < |name| ==> IsPlain(name[j]))
  {
    hide ScanFrom; hide ScanLine; hide PlainFrom; hide IsPlain;
    var at := 4 + |name|;
    TailWords();
    PartOf(l, at, tail, 0, 13);
    PartOf(l, at, tail, 1, 5);
    PartOf(l, at, tail, 6, 12);
    PlainScan(l, "    ", 0, 0, NEUTRAL);
    PlainScan(l, name, 4, 0, NEUTRAL);
    assert l[at + 0] == '(';
    OpenScan(l, at);
    PlainScan(l, "self", at + 1, 0, INNER);
    assert l[at + 5] == ')';
    CloseScan(l, at + 5);
    PlainScan(l, ": pass", at + 6, 0, NEUTRAL);
    assert l[at + 12] == '\n';
    EndScan(l, at + 12);
  }

  const INNER := State(1, None, false)

  lemma TailWords()
    ensures PlainFrom("    ", 0) && PlainFrom("self", 0) && PlainFrom(": pass", 0)
  {}

  lemma OpenScan(l: Text, i: nat)
    requires i < |l| && l[i] == '('
    ensures ScanFrom(l, i, NEUTRAL) == ScanFrom(l, i + 1, INNER)
  {}

  lemma CloseScan(l: Text, i: nat)
    requires i < |l| && l[i] == ')'
    ensures ScanFrom(l, i, INNER) == ScanFrom(l, i + 1, NEUTRAL)
  {}

  lemma EndScan(l: Text, i: nat)
    requires i + 1 == |l| && l[i] == '\n'
    ensures ScanFrom(l, i, NEUTRAL) == Some(NEUTRAL) && ScanLine(l, NEUTRAL) == ScanFrom(l, 0, NEUTRAL)
  {
    assert ScanFrom(l, i, NEUTRAL) == ScanFrom(l, i + 1, NEUTRAL);
  }

  lemma OneLinerKind(l: Text)
    requires |l| > 4 && (forall k :: 0 <= k < 4 ==> l[k] == ' ') && IsPlain(l[4]) && l[4] != ' '
    ensures KindOf(l, NEUTRAL) == Statement(4)
  {
    assert Indent(l, 0) == Indent(l, 1) == Indent(l, 2) == Indent(l, 3) == Indent(l, 4) == 4;
    assert !IsBlank(l, 4);
  }

  lemma {:induction false} PlainJoin(a: Text, b: Text, i: nat)
    requires PlainFrom(a, i) && PlainFrom(b, 0) && i <= |a|
    ensures PlainFrom(a + b, i)
    decreases |a| - i
  {
    if i < |a| { PlainJoin(a, b, i + 1); } else { PlainShift(a, b, 0); }
  }

  lemma {:induction false} PlainShift(a: Text, b: Text, i: nat)
    requires PlainFrom(b, i)
    ensures PlainFrom(a + b, |a| + i)
    decreases |b| - i
  {
    if i < |b| { PlainShift(a, b, i + 1); }
  }

  lemma PlainWords()
    ensures PlainFrom("def ", 0) && PlainFrom("read_", 0) && PlainFrom("write_", 0) && PlainFrom("bytestring", 0)
  {}

  /** There are such blocks. */
  lemma SomeAdded()
    ensures Added([OneLiner(READ), OneLiner(WRITE)])
  {
    PlainWords();
    hide PlainFrom; hide OneLiner; hide Inserted; hide Defines;
    PlainJoin("def ", "read_", 0);
    PlainJoin("def " + "read_", "bytestring", 0);
    PlainJoin("def ", "write_", 0);
    PlainJoin("def " + "write_", "bytestring", 0);
    OneLinerDefines(READ);
    OneLinerDefines(WRITE);
    var ms := [OneLiner(READ), OneLiner(WRITE)];
    assert Defines(ms[0], READ) && Defines(ms[1], WRITE);
  }
}
