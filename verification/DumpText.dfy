/** The dump as text: one statement a line, read back by splitting on line ends. */
module DumpText {

  /** Characters readline ends a line at, and those trim() strips; every line end is blank. */
  datatype Charset = Charset(ends: set<char>, blank: set<char>)

  ghost predicate Sensible(k: Charset) {
    '\n' in k.ends && k.ends <= k.blank
  }

  function Lines(k: Charset, text: string): (ls: seq<string>)
    ensures ls != []
  {
    if text == "" then [""]
    else if text[0] in k.ends then [""] + Lines(k, text[1..])
    else
      var rest := Lines(k, text[1..]);
      [[text[0]] + rest[0]] + rest[1..]
  }

  function TrimStart(k: Charset, s: string): string {
    if s != "" && s[0] in k.blank then TrimStart(k, s[1..]) else s
  }

  function TrimEnd(k: Charset, s: string): string {
    if s != "" && s[|s| - 1] in k.blank then TrimEnd(k, s[..|s| - 1]) else s
  }

  function Trim(k: Charset, s: string): string {
    TrimEnd(k, TrimStart(k, s))
  }

  /** `line.trim()`, and `continue` on a blank one. */
  function Statements(k: Charset, lines: seq<string>): seq<string> {
    if lines == [] then []
    else (if Trim(k, lines[0]) == "" then [] else [Trim(k, lines[0])]) + Statements(k, lines[1..])
  }

  function ReadBack(k: Charset, text: string): seq<string> {
    Statements(k, Lines(k, text))
  }

  /** `write(stmt + "\n")` for each. */
  function Written(stmts: seq<string>): string {
    if stmts == [] then "" else stmts[0] + "\n" + Written(stmts[1..])
  }

  /** Neither begins nor ends with a blank. */
  predicate Solid(k: Charset, s: string) {
    s != "" && s[0] !in k.blank && s[|s| - 1] !in k.blank
  }

  predicate OneLine(k: Charset, s: string) {
    forall i :: 0 <= i < |s| ==> s[i] !in k.ends
  }

  /** readline over the file, and the filter of the import loop. */
  method ReadStatements(k: Charset, text: string) returns (stmts: seq<string>)
    ensures stmts == ReadBack(k, text)
  {
    var lines := Lines(k, text);
    stmts := [];
    var i := 0;
    while i < |lines|
      invariant 0 <= i <= |lines|
      invariant stmts + Statements(k, lines[i..]) == ReadBack(k, text)
    {
      assert lines[i..][1..] == lines[i + 1..];
      var stmt := Trim(k, lines[i]);
      if stmt != "" {
        stmts := stmts + [stmt];
      }
      i := i + 1;
    }
  }

  lemma {:induction false} LinesTogether(k: Charset, a: string, e: char, b: string)
    requires e in k.ends
    ensures Lines(k, a + [e] + b) == Lines(k, a) + Lines(k, b)
  {
    if a == "" {
      assert (a + [e] + b)[1..] == b;
    } else {
      assert (a + [e] + b)[1..] == a[1..] + [e] + b;
      LinesTogether(k, a[1..], e, b);
    }
  }

  lemma {:induction false} StatementsTogether(k: Charset, a: seq<string>, b: seq<string>)
    ensures Statements(k, a + b) == Statements(k, a) + Statements(k, b)
  {
    hide Trim;
    if a == [] {
      assert a + b == b;
    } else {
      assert (a + b)[1..] == a[1..] + b;
      StatementsTogether(k, a[1..], b);
    }
  }

  lemma {:induction false} OneLineIsOneLine(k: Charset, s: string)
    requires OneLine(k, s)
    ensures Lines(k, s) == [s]
  {
    if s != "" {
      OneLineIsOneLine(k, s[1..]);
      assert [s[0]] + s[1..] == s;
    }
  }

  lemma ReadingOneMore(k: Charset, s: string, stmts: seq<string>)
    requires Sensible(k)
    ensures ReadBack(k, Written([s] + stmts)) == ReadBack(k, s) + ReadBack(k, Written(stmts))
  {
    assert ([s] + stmts)[1..] == stmts;
    LinesTogether(k, s, '\n', Written(stmts));
    StatementsTogether(k, Lines(k, s), Lines(k, Written(stmts)));
  }

  // ------------------------------------------------------------------ counting what comes back

  lemma {:induction false} TrimStartKeeps(k: Charset, s: string, i: nat) returns (j: nat)
    requires i < |s| && s[i] !in k.blank
    ensures j < |TrimStart(k, s)| && TrimStart(k, s)[j] !in k.blank
  {
    if s[0] in k.blank {
      j := TrimStartKeeps(k, s[1..], i - 1);
    } else {
      j := i;
    }
  }

  lemma {:induction false} TrimEndKeeps(k: Charset, s: string, i: nat)
    requires i < |s| && s[i] !in k.blank
    ensures TrimEnd(k, s) != ""
  {
    if s[|s| - 1] in k.blank {
      TrimEndKeeps(k, s[..|s| - 1], i);
    }
  }

  lemma OneStatement(k: Charset, s: string, i: nat)
    requires OneLine(k, s) && i < |s| && s[i] !in k.blank
    ensures ReadBack(k, s) == [Trim(k, s)]
  {
    OneLineIsOneLine(k, s);
    var j := TrimStartKeeps(k, s, i);
    TrimEndKeeps(k, TrimStart(k, s), j);
    assert [s][1..] == [] && Statements(k, []) == [];
    assert Statements(k, [s]) == [Trim(k, s)] + Statements(k, []);
  }

  /** Cutting at a line end. */
  lemma ReadBackSplits(k: Charset, s: string, p: nat)
    requires p < |s| && s[p] in k.ends
    ensures ReadBack(k, s) == ReadBack(k, s[..p]) + ReadBack(k, s[p + 1..])
  {
    LinesTogether(k, s[..p], s[p], s[p + 1..]);
    assert s == s[..p] + [s[p]] + s[p + 1..];
    StatementsTogether(k, Lines(k, s[..p]), Lines(k, s[p + 1..]));
  }

  /** A text with a character that is not blank yields a statement. */
  lemma {:induction false} SomethingComesBack(k: Charset, s: string, i: nat)
    requires Sensible(k) && i < |s| && s[i] !in k.blank
    ensures |ReadBack(k, s)| >= 1
    decreases |s|
  {
    hide ReadBack;
    if OneLine(k, s) {
      OneStatement(k, s, i);
    } else {
      var p :| 0 <= p < |s| && s[p] in k.ends;
      ReadBackSplits(k, s, p);
      if i < p {
        SomethingComesBack(k, s[..p], i);
      } else {
        SomethingComesBack(k, s[p + 1..], i - p - 1);
      }
    }
  }

  lemma BrokenStatementComesBackInPieces(k: Charset, s: string)
    requires Sensible(k) && Solid(k, s) && !OneLine(k, s)
    ensures |ReadBack(k, s)| >= 2
  {
    hide ReadBack;
    var p :| 0 <= p < |s| && s[p] in k.ends;
    ReadBackSplits(k, s, p);
    SomethingComesBack(k, s[..p], 0);
    SomethingComesBack(k, s[p + 1..], |s| - p - 2);
  }

  lemma {:induction false} ReadBackCounts(k: Charset, stmts: seq<string>)
    requires Sensible(k) && forall i :: 0 <= i < |stmts| ==> Solid(k, stmts[i])
    ensures |ReadBack(k, Written(stmts))| >= |stmts|
    ensures (exists i :: 0 <= i < |stmts| && !OneLine(k, stmts[i])) ==> |ReadBack(k, Written(stmts))| > |stmts|
    ensures (forall i :: 0 <= i < |stmts| ==> OneLine(k, stmts[i])) ==> ReadBack(k, Written(stmts)) == stmts
  {
    hide Solid, OneLine, Sensible;
    if stmts == [] {
      assert Lines(k, "") == [""] && [""][1..] == [] && Trim(k, "") == "";
      assert Statements(k, [""]) == [];
    } else {
      var s, rest := stmts[0], stmts[1..];
      assert stmts == [s] + rest;
      ReadingOneMore(k, s, rest);
      assert forall i :: 0 <= i < |rest| ==> rest[i] == stmts[i + 1];
      assert forall i :: 0 < i < |stmts| ==> stmts[i] == rest[i - 1];
      ReadBackCounts(k, rest);
      SolidComesBack(k, s);
    }
  }

  lemma SolidComesBack(k: Charset, s: string)
    requires Sensible(k) && Solid(k, s)
    ensures OneLine(k, s) ==> ReadBack(k, s) == [s]
    ensures !OneLine(k, s) ==> |ReadBack(k, s)| >= 2
  {
    if OneLine(k, s) {
      OneStatement(k, s, 0);
    } else {
      BrokenStatementComesBackInPieces(k, s);
    }
  }

  predicate AllBlank(k: Charset, s: string) {
    forall i :: 0 <= i < |s| ==> s[i] in k.blank && s[i] !in k.ends
  }

  lemma {:induction false} TrimmedFront(k: Charset, a: string, s: string)
    requires AllBlank(k, a) && (s == "" || s[0] !in k.blank)
    ensures TrimStart(k, a + s) == s
  {
    if a == "" {
      assert a + s == s;
    } else {
      assert (a + s)[1..] == a[1..] + s;
      TrimmedFront(k, a[1..], s);
    }
  }

  lemma {:induction false} TrimmedBack(k: Charset, s: string, b: string)
    requires AllBlank(k, b) && (s == "" || s[|s| - 1] !in k.blank)
    ensures TrimEnd(k, s + b) == s
  {
    if b == "" {
      assert s + b == s;
    } else {
      assert (s + b)[..|s + b| - 1] == s + b[..|b| - 1];
      TrimmedBack(k, s, b[..|b| - 1]);
    }
  }

  /** Blanks around a statement are dropped, and so are blank lines. */
  lemma BlanksAreDropped(k: Charset, a: string, s: string, b: string)
    requires Sensible(k) && AllBlank(k, a) && AllBlank(k, b) && Solid(k, s) && OneLine(k, s)
    ensures ReadBack(k, a + s + b) == [s] && ReadBack(k, a) == []
  {
    OneLineIsOneLine(k, a + s + b);
    OneLineIsOneLine(k, a);
    assert a + s + b == a + (s + b) && a + "" == a;
    TrimmedFront(k, a, s + b);
    TrimmedBack(k, s, b);
    TrimmedFront(k, a, "");
    assert [a + s + b][1..] == [] && [a][1..] == [];
    assert Statements(k, [a + s + b]) == [s] + Statements(k, []);
    assert Statements(k, [a]) == [] + Statements(k, []);
  }

  /** The file reads back as the statements written exactly when each of them is on a single line. */
  lemma ReadsBackIff(k: Charset, stmts: seq<string>)
    requires Sensible(k) && forall i :: 0 <= i < |stmts| ==> Solid(k, stmts[i])
    ensures ReadBack(k, Written(stmts)) == stmts <==> forall i :: 0 <= i < |stmts| ==> OneLine(k, stmts[i])
  {
    ReadBackCounts(k, stmts);
  }
}
