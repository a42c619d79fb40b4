/** Two values have the same canonical text exactly when they are the same up to key order. */
module CanonicalJsonLaws {
  import opened CanonicalJson

  // ------------------------------------------------------------------ texts that end where they end

  /** What may follow a value: nothing, a comma or a closing bracket. */
  predicate Rest(x: string) {
    x == "" || x[0] == ',' || x[0] == ']' || x[0] == '}'
  }

  /** Neither text can be mistaken for a beginning of the other. */
  ghost predicate Delimits(e: string, f: string) {
    forall x, y :: EndsAlike(e, f, x, y)
  }

  predicate EndsAlike(e: string, f: string, x: string, y: string) {
    Rest(x) && Rest(y) && e + x == f + y ==> e == f && x == y
  }

  predicate Starts(e: string) {
    e != "" && !Rest(e)
  }

  lemma SameLengthSplit(e: string, x: string, f: string, y: string)
    requires e + x == f + y && |e| == |f|
    ensures e == f && x == y
  {
    assert e == (e + x)[..|e|] && f == (f + y)[..|f|];
    assert x == (e + x)[|e|..] && y == (f + y)[|f|..];
  }

  lemma DifferentStarts(e: string, f: string)
    requires e != "" && f != "" && e[0] != f[0]
    ensures Delimits(e, f)
  {
    forall x, y ensures EndsAlike(e, f, x, y) {
      assert (e + x)[0] == e[0] && (f + y)[0] == f[0];
    }
  }

  predicate NoDelimiter(e: string) {
    forall i :: 0 <= i < |e| ==> e[i] != ',' && e[i] != ']' && e[i] != '}'
  }

  /** Where the shorter of two beginnings ends, the longer one goes on. */
  lemma Overlap(e: string, x: string, f: string, y: string)
    ensures e + x == f + y && |e| < |f| ==> x != "" && x[0] == f[|e|]
  {
    if e + x == f + y && |e| < |f| {
      assert (f + y)[|e|] == f[|e|] && |e + x| == |f + y|;
      assert (e + x)[|e|] == x[0];
    }
  }

  lemma PlainTextsDelimit(e: string, f: string)
    requires NoDelimiter(e) && NoDelimiter(f)
    ensures Delimits(e, f)
  {
    forall x, y ensures EndsAlike(e, f, x, y) {
      if Rest(x) && Rest(y) && e + x == f + y {
        Overlap(e, x, f, y);
        Overlap(f, y, e, x);
        SameLengthSplit(e, x, f, y);
      }
    }
  }

  // ------------------------------------------------------------------ strings

  lemma HexDigitsDiffer(c: nat, d: nat)
    requires c < 16 && d < 16 && HexDigit(c) == HexDigit(d)
    ensures c == d
  {
  }

  /** An escaped character ends where it ends, and no escape starts like the closing quote. */
  lemma EscapesDelimit(c: char, x: string, d: char, y: string)
    requires EscapedChar(c) + x == EscapedChar(d) + y
    ensures c == d && x == y
  {
    var e, f := EscapedChar(c), EscapedChar(d);
    assert (e + x)[0] == e[0] && (f + y)[0] == f[0];
    if e[0] == '\\' {
      assert (e + x)[1] == e[1] && (f + y)[1] == f[1];
      if e[1] == 'u' {
        assert (e + x)[4] == e[4] && (f + y)[4] == f[4];
        assert (e + x)[5] == e[5] && (f + y)[5] == f[5];
        HexDigitsDiffer(c as int / 16, d as int / 16);
        HexDigitsDiffer(c as int % 16, d as int % 16);
      }
    }
    SameLengthSplit(e, x, f, y);
  }

  /** Only the closing quote starts like a quote. */
  lemma QuoteComesLast(s: string, x: string)
    ensures (Escaped(s) + ['"'] + x)[0] == '"' <==> s == ""
  {
    if s != "" {
      assert (Escaped(s) + ['"'] + x)[0] == EscapedChar(s[0])[0];
    }
  }

  /** A quoted string ends at its closing quote, whatever follows. */
  lemma {:induction false} EscapedDelimits(s: string, x: string, t: string, y: string)
    requires Escaped(s) + ['"'] + x == Escaped(t) + ['"'] + y
    ensures s == t && x == y
    decreases |s|
  {
    hide EscapedChar;
    var a, b := Escaped(s) + ['"'] + x, Escaped(t) + ['"'] + y;
    QuoteComesLast(s, x);
    QuoteComesLast(t, y);
    if s == "" {
      assert x == a[1..] && y == b[1..];
    } else {
      var x', y' := Escaped(s[1..]) + ['"'] + x, Escaped(t[1..]) + ['"'] + y;
      assert a == EscapedChar(s[0]) + x' && b == EscapedChar(t[0]) + y';
      EscapesDelimit(s[0], x', t[0], y');
      EscapedDelimits(s[1..], x, t[1..], y);
    }
  }

  lemma QuotedDelimits(s: string, x: string, t: string, y: string)
    requires Quoted(s) + x == Quoted(t) + y
    ensures s == t && x == y
  {
    hide Escaped;
    assert (Quoted(s) + x)[1..] == Escaped(s) + ['"'] + x;
    assert (Quoted(t) + y)[1..] == Escaped(t) + ['"'] + y;
    EscapedDelimits(s, x, t, y);
  }

  // ------------------------------------------------------------------ lists

  /** Elements that each end where they end, joined and closed, do so as a whole. */
  lemma {:induction false} JoinedDelimits(es: seq<string>, fs: seq<string>, close: char, x: string, y: string)
    requires close == ']' || close == '}'
    requires forall i :: 0 <= i < |es| ==> Starts(es[i])
    requires forall i :: 0 <= i < |fs| ==> Starts(fs[i])
    requires forall i, j :: 0 <= i < |es| && 0 <= j < |fs| ==> Delimits(es[i], fs[j])
    requires Join(es) + [close] + x == Join(fs) + [close] + y
    ensures es == fs && x == y
    decreases |es|
  {
    hide Delimits;
    var a, b := Join(es) + [close] + x, Join(fs) + [close] + y;
    if es == [] || fs == [] {
      ClosedAtOnce(es, close, x);
      ClosedAtOnce(fs, close, y);
      assert x == a[1..] && y == b[1..];
    } else {
      var x', y' := After(es, close, x), After(fs, close, y);
      assert a == es[0] + x' && b == fs[0] + y';
      FirstEnds(es[0], fs[0], x', y');
      if |es| > 1 && |fs| > 1 {
        assert x'[1..] == Join(es[1..]) + [close] + x && y'[1..] == Join(fs[1..]) + [close] + y;
        JoinedDelimits(es[1..], fs[1..], close, x, y);
        assert es == [es[0]] + es[1..] && fs == [fs[0]] + fs[1..];
      } else {
        assert x' == y' && |es| == |fs| == 1;
        assert x == x'[1..] && y == y'[1..];
      }
    }
  }

  /** What comes after the first element. */
  function After(es: seq<string>, close: char, x: string): string
    requires es != []
  {
    if |es| == 1 then [close] + x else "," + Join(es[1..]) + [close] + x
  }

  lemma FirstEnds(e: string, f: string, x: string, y: string)
    requires Delimits(e, f) && Rest(x) && Rest(y) && e + x == f + y
    ensures e == f && x == y
  {
    assert EndsAlike(e, f, x, y);
  }

  /** The list is empty exactly if the text begins with the closing bracket. */
  lemma ClosedAtOnce(es: seq<string>, close: char, x: string)
    requires close == ']' || close == '}'
    requires forall i :: 0 <= i < |es| ==> Starts(es[i])
    ensures (Join(es) + [close] + x)[0] == close <==> es == []
  {
    if es != [] {
      assert (Join(es) + [close] + x)[0] == es[0][0];
    }
  }

  // ------------------------------------------------------------------ sorting

  lemma {:induction false} KeyLessIsAsymmetric(a: string, b: string)
    requires KeyLess(a, b)
    ensures !KeyLess(b, a) && a != b
  {
    if a != "" && a[0] == b[0] {
      KeyLessIsAsymmetric(a[1..], b[1..]);
    }
  }

  lemma {:induction false} KeyLessIsTotal(a: string, b: string)
    requires a != b
    ensures KeyLess(a, b) || KeyLess(b, a)
  {
    if a != "" && b != "" && a[0] == b[0] {
      assert a == [a[0]] + a[1..] && b == [b[0]] + b[1..];
      KeyLessIsTotal(a[1..], b[1..]);
    }
  }

  lemma {:induction false} KeyLessIsTransitive(a: string, b: string, c: string)
    requires KeyLess(a, b) && KeyLess(b, c)
    ensures KeyLess(a, c)
  {
    if a != "" && a[0] == b[0] == c[0] {
      KeyLessIsTransitive(a[1..], b[1..], c[1..]);
    }
  }

  predicate Ascending(es: seq<Entry>) {
    forall i, j :: 0 <= i < j < |es| ==> KeyLess(es[i].key, es[j].key)
  }

  predicate DistinctKeys(es: seq<Entry>) {
    forall i, j :: 0 <= i < j < |es| ==> es[i].key != es[j].key
  }

  lemma {:induction false} InsertedHolds(e: Entry, es: seq<Entry>)
    ensures multiset(InsertEntry(e, es)) == multiset(es) + multiset{e}
    ensures forall x :: x in InsertEntry(e, es) <==> x == e || x in es
  {
    hide KeyLess;
    if es != [] {
      InsertedHolds(e, es[1..]);
      assert es == [es[0]] + es[1..];
    }
  }

  lemma HeadAscends(e: Entry, es: seq<Entry>)
    requires Ascending(es) && forall x :: x in es ==> KeyLess(e.key, x.key)
    ensures Ascending([e] + es)
  {
    hide KeyLess;
  }

  /** The head of an ascending list is below the rest of it. */
  lemma HeadIsBelow(es: seq<Entry>)
    requires Ascending(es) && es != []
    ensures Ascending(es[1..]) && forall x :: x in es[1..] ==> KeyLess(es[0].key, x.key)
  {
    hide KeyLess;
  }

  lemma {:induction false} InsertedAscends(e: Entry, es: seq<Entry>)
    requires Ascending(es) && forall i :: 0 <= i < |es| ==> es[i].key != e.key
    ensures Ascending(InsertEntry(e, es)) && multiset(InsertEntry(e, es)) == multiset(es) + multiset{e}
  {
    hide KeyLess, Ascending;
    InsertedHolds(e, es);
    if es == [] {
      OneAscends(e);
    } else {
      HeadIsBelow(es);
      assert es == [es[0]] + es[1..];
      if !KeyLess(es[0].key, e.key) {
        KeyLessIsTotal(e.key, es[0].key);
        forall x | x in es ensures KeyLess(e.key, x.key) {
          if x in es[1..] {
            KeyLessIsTransitive(e.key, es[0].key, x.key);
          }
        }
        HeadAscends(e, es);
      } else {
        InsertedAscends(e, es[1..]);
        InsertedHolds(e, es[1..]);
        HeadAscends(es[0], InsertEntry(e, es[1..]));
      }
    }
  }

  lemma OneAscends(e: Entry)
    ensures Ascending([e]) && [e] + [] == [e]
  {
  }

  lemma {:induction false} SortingAscends(es: seq<Entry>)
    requires DistinctKeys(es)
    ensures Ascending(SortedByKey(es)) && multiset(SortedByKey(es)) == multiset(es) && |SortedByKey(es)| == |es|
  {
    hide KeyLess, InsertEntry;
    if es != [] {
      var rest := SortedByKey(es[1..]);
      SortingAscends(es[1..]);
      forall i | 0 <= i < |rest| ensures rest[i].key != es[0].key {
        assert rest[i] in multiset(rest) && rest[i] in es[1..];
      }
      InsertedAscends(es[0], rest);
      assert es == [es[0]] + es[1..];
      assert |multiset(SortedByKey(es))| == |SortedByKey(es)| && |multiset(es)| == |es|;
    }
  }

  /** Only one ascending order holds given entries. */
  lemma {:induction false} AscendingIsUnique(p: seq<Entry>, q: seq<Entry>)
    requires Ascending(p) && Ascending(q) && multiset(p) == multiset(q)
    ensures p == q
    decreases |p|
  {
    hide KeyLess, Ascending;
    assert |multiset(p)| == |p| && |multiset(q)| == |q|;
    if p != [] {
      HeadIsLeast(p, q);
      HeadIsLeast(q, p);
      SameHead(p, q);
      Tail(p);
      Tail(q);
      AscendingIsUnique(p[1..], q[1..]);
    }
  }

  lemma Tail(p: seq<Entry>)
    requires p != [] && Ascending(p)
    ensures p == [p[0]] + p[1..] && multiset(p[1..]) == multiset(p) - multiset{p[0]} && Ascending(p[1..])
  {
    hide KeyLess;
    assert p == [p[0]] + p[1..];
    assert multiset(p) == multiset{p[0]} + multiset(p[1..]);
  }

  lemma HeadIsLeast(p: seq<Entry>, q: seq<Entry>)
    requires Ascending(p) && p != [] && q != [] && multiset(p) == multiset(q)
    ensures q[0] == p[0] || KeyLess(p[0].key, q[0].key)
  {
    assert q[0] in multiset(p);
    var i :| 0 <= i < |p| && p[i] == q[0];
  }

  lemma SameHead(p: seq<Entry>, q: seq<Entry>)
    requires p != [] && q != []
    requires q[0] == p[0] || KeyLess(p[0].key, q[0].key)
    requires p[0] == q[0] || KeyLess(q[0].key, p[0].key)
    ensures p[0] == q[0]
  {
    if KeyLess(p[0].key, q[0].key) {
      KeyLessIsAsymmetric(p[0].key, q[0].key);
    }
  }

  // ------------------------------------------------------------------ whole values

  lemma MemberEnds(k: string, e: string, l: string, f: string, x: string, y: string)
    requires Delimits(e, f) && Rest(x) && Rest(y) && Quoted(k) + ":" + e + x == Quoted(l) + ":" + f + y
    ensures k == l && e == f && x == y
  {
    hide Quoted, Delimits;
    var u, v := ":" + e + x, ":" + f + y;
    assert Quoted(k) + u == Quoted(k) + ":" + e + x && Quoted(l) + v == Quoted(l) + ":" + f + y;
    QuotedDelimits(k, u, l, v);
    assert u[1..] == e + x && v[1..] == f + y;
    FirstEnds(e, f, x, y);
  }

  lemma MembersDelimit(k: string, e: string, l: string, f: string)
    requires Delimits(e, f)
    ensures Delimits(Quoted(k) + ":" + e, Quoted(l) + ":" + f)
    ensures Quoted(k) + ":" + e == Quoted(l) + ":" + f ==> k == l && e == f
  {
    hide Quoted, Rest;
    var m, n := Quoted(k) + ":" + e, Quoted(l) + ":" + f;
    forall x, y ensures EndsAlike(m, n, x, y) {
      if Rest(x) && Rest(y) && m + x == n + y {
        MemberEnds(k, e, l, f, x, y);
      }
    }
    if m == n {
      NothingIsARest();
      assert m + "" == n + "";
      MemberEnds(k, e, l, f, "", "");
    }
  }

  lemma NothingIsARest()
    ensures Rest("")
  {
  }

  lemma {:induction false} RenderedElements(es: seq<Entry>)
    ensures |Rendered(es)| == |es| && forall i :: 0 <= i < |es| ==>
            Rendered(es)[i] == Quoted(es[i].key) + ":" + es[i].text
  {
    hide Quoted;
    if es != [] {
      RenderedElements(es[1..]);
    }
  }

  lemma EntriesAreDistinct(ms: seq<Member>)
    requires UniqueKeys(ms)
    ensures DistinctKeys(Entries(ms))
  {
    hide StableStringify;
  }

  /** The entries of an object in sorted order, each still one of its members. */
  function Sorted(ms: seq<Member>): seq<Entry> {
    SortedByKey(Entries(ms))
  }

  lemma SortedMembers(ms: seq<Member>)
    requires UniqueKeys(ms)
    ensures Ascending(Sorted(ms)) && multiset(Sorted(ms)) == multiset(Entries(ms)) && |Sorted(ms)| == |ms|
    ensures forall k :: 0 <= k < |Sorted(ms)| ==>
              exists i :: 0 <= i < |ms| && Sorted(ms)[k] == Entry(ms[i].key, StableStringify(ms[i].value))
  {
    hide StableStringify, SortedByKey;
    EntriesAreDistinct(ms);
    SortingAscends(Entries(ms));
    forall k | 0 <= k < |Sorted(ms)|
      ensures exists i :: 0 <= i < |ms| && Sorted(ms)[k] == Entry(ms[i].key, StableStringify(ms[i].value))
    {
      assert Sorted(ms)[k] in multiset(Entries(ms));
      var i :| 0 <= i < |Entries(ms)| && Entries(ms)[i] == Sorted(ms)[k];
    }
  }

  /** What a value's text begins with tells its kind. */
  lemma FirstCharacter(j: Json)
    requires Valid(j)
    ensures Starts(StableStringify(j))
    ensures j.Text? <==> StableStringify(j)[0] == '"'
    ensures j.Arr? <==> StableStringify(j)[0] == '['
    ensures j.Obj? <==> StableStringify(j)[0] == '{'
    ensures !j.Text? && !j.Arr? && !j.Obj? ==> NoDelimiter(StableStringify(j))
  {
    hide Join, Rendered, SortedByKey, Entries, Items, Escaped;
  }

  lemma ListEnds(open: char, es: seq<string>, fs: seq<string>, close: char, x: string, y: string)
    requires close == ']' || close == '}'
    requires forall i :: 0 <= i < |es| ==> Starts(es[i])
    requires forall i :: 0 <= i < |fs| ==> Starts(fs[i])
    requires forall i, j :: 0 <= i < |es| && 0 <= j < |fs| ==> Delimits(es[i], fs[j])
    requires [open] + Join(es) + [close] + x == [open] + Join(fs) + [close] + y
    ensures es == fs && x == y
  {
    hide Join, Delimits, Starts;
    var a, b := Join(es) + [close] + x, Join(fs) + [close] + y;
    AfterOpening(open, Join(es), [close], x);
    AfterOpening(open, Join(fs), [close], y);
    assert a == b by { SameLengthSplit([open], a, [open], b); }
    JoinedDelimits(es, fs, close, x, y);
  }

  lemma AfterOpening(open: char, a: string, b: string, c: string)
    ensures [open] + a + b + c == [open] + (a + b + c)
  {
  }

  lemma ListsDelimit(open: char, es: seq<string>, fs: seq<string>, close: char)
    requires close == ']' || close == '}'
    requires forall i :: 0 <= i < |es| ==> Starts(es[i])
    requires forall i :: 0 <= i < |fs| ==> Starts(fs[i])
    requires forall i, j :: 0 <= i < |es| && 0 <= j < |fs| ==> Delimits(es[i], fs[j])
    ensures Delimits([open] + Join(es) + [close], [open] + Join(fs) + [close])
    ensures [open] + Join(es) + [close] == [open] + Join(fs) + [close] ==> es == fs
  {
    hide Join, Starts, Delimits;
    var e, f := [open] + Join(es) + [close], [open] + Join(fs) + [close];
    forall x, y ensures EndsAlike(e, f, x, y) {
      if e + x == f + y {
        ListEnds(open, es, fs, close, x, y);
      }
    }
    DelimitsMeans(e, f);
    if e == f {
      assert e + "" == f + "";
      ListEnds(open, es, fs, close, "", "");
    }
  }

  lemma DelimitsMeans(e: string, f: string)
    requires forall x, y :: EndsAlike(e, f, x, y)
    ensures Delimits(e, f)
  {
  }

  /** No value's text is a beginning of another's, in any place a value can stand. */
  lemma {:induction false} TextsDelimit(a: Json, b: Json)
    requires Valid(a) && Valid(b)
    ensures Delimits(StableStringify(a), StableStringify(b))
    decreases a
  {
    hide Delimits, Join, Rendered, SortedByKey, Quoted, Starts, NoDelimiter;
    FirstCharacter(a);
    FirstCharacter(b);
    match (a, b) {
      case (Text(s), Text(t)) => StringsDelimit(s, t);
      case (Arr(xs), Arr(ys)) =>
        forall i, j | 0 <= i < |xs| && 0 <= j < |ys|
          ensures Delimits(StableStringify(xs[i]), StableStringify(ys[j]))
        {
          TextsDelimit(xs[i], ys[j]);
        }
        ArraysDelimit(xs, ys);
      case (Obj(ms), Obj(ns)) =>
        forall i, j | 0 <= i < |ms| && 0 <= j < |ns|
          ensures Delimits(StableStringify(ms[i].value), StableStringify(ns[j].value))
        {
          TextsDelimit(ms[i].value, ns[j].value);
        }
        ObjectsDelimit(ms, ns);
      case _ =>
        if a.Text? || a.Arr? || a.Obj? || b.Text? || b.Arr? || b.Obj? {
          StartsAreNotEmpty(StableStringify(a));
          StartsAreNotEmpty(StableStringify(b));
          DifferentStarts(StableStringify(a), StableStringify(b));
        } else {
          PlainTextsDelimit(StableStringify(a), StableStringify(b));
        }
    }
  }

  lemma StartsAreNotEmpty(e: string)
    requires Starts(e)
    ensures e != ""
  {
  }

  lemma StringsDelimit(s: string, t: string)
    ensures Delimits(Quoted(s), Quoted(t))
  {
    hide Quoted;
    forall x, y ensures EndsAlike(Quoted(s), Quoted(t), x, y) {
      if Quoted(s) + x == Quoted(t) + y {
        QuotedDelimits(s, x, t, y);
      }
    }
  }

  lemma ArraysDelimit(xs: seq<Json>, ys: seq<Json>)
    requires forall i :: 0 <= i < |xs| ==> Valid(xs[i])
    requires forall i :: 0 <= i < |ys| ==> Valid(ys[i])
    requires forall i, j :: 0 <= i < |xs| && 0 <= j < |ys| ==> Delimits(StableStringify(xs[i]), StableStringify(ys[j]))
    ensures Delimits(StableStringify(Arr(xs)), StableStringify(Arr(ys)))
    ensures StableStringify(Arr(xs)) == StableStringify(Arr(ys)) ==> Items(xs) == Items(ys)
  {
    hide Delimits, Join, Starts;
    forall i | 0 <= i < |xs| ensures Starts(Items(xs)[i]) {
      FirstCharacter(xs[i]);
    }
    forall i | 0 <= i < |ys| ensures Starts(Items(ys)[i]) {
      FirstCharacter(ys[i]);
    }
    ListsDelimit('[', Items(xs), Items(ys), ']');
  }

  lemma ObjectsDelimit(ms: seq<Member>, ns: seq<Member>)
    requires Valid(Obj(ms)) && Valid(Obj(ns))
    requires forall i, j :: 0 <= i < |ms| && 0 <= j < |ns| ==>
               Delimits(StableStringify(ms[i].value), StableStringify(ns[j].value))
    ensures Delimits(StableStringify(Obj(ms)), StableStringify(Obj(ns)))
    ensures StableStringify(Obj(ms)) == StableStringify(Obj(ns)) ==> Sorted(ms) == Sorted(ns)
  {
    hide Delimits, Join, Starts, Rendered, SortedByKey, Quoted, Entries, Ascending, Valid;
    assert UniqueKeys(ms) && UniqueKeys(ns) by { UniqueInside(ms); UniqueInside(ns); }
    var p, q := Sorted(ms), Sorted(ns);
    SortedMembers(ms);
    SortedMembers(ns);
    RenderedElements(p);
    RenderedElements(q);
    forall k, l | 0 <= k < |p| && 0 <= l < |q|
      ensures Delimits(Rendered(p)[k], Rendered(q)[l]) && (Rendered(p)[k] == Rendered(q)[l] ==> p[k] == q[l])
    {
      var i :| 0 <= i < |ms| && p[k] == Entry(ms[i].key, StableStringify(ms[i].value));
      var j :| 0 <= j < |ns| && q[l] == Entry(ns[j].key, StableStringify(ns[j].value));
      MembersDelimit(p[k].key, p[k].text, q[l].key, q[l].text);
    }
    forall k | 0 <= k < |p| ensures Starts(Rendered(p)[k]) {
      MemberStarts(p[k].key, p[k].text);
    }
    forall k | 0 <= k < |q| ensures Starts(Rendered(q)[k]) {
      MemberStarts(q[k].key, q[k].text);
    }
    ListsDelimit('{', Rendered(p), Rendered(q), '}');
  }

  lemma UniqueInside(ms: seq<Member>)
    requires Valid(Obj(ms))
    ensures UniqueKeys(ms) && forall i :: 0 <= i < |ms| ==> Valid(ms[i].value)
  {
  }

  lemma MemberStarts(k: string, e: string)
    ensures Starts(Quoted(k) + ":" + e)
  {
    hide Escaped;
  }

  // ------------------------------------------------------------------ the two directions

  lemma {:induction false} SameTextMeansSame(a: Json, b: Json)
    requires Valid(a) && Valid(b) && StableStringify(a) == StableStringify(b)
    ensures Same(a, b)
    decreases a
  {
    hide StableStringify, Same, Starts, NoDelimiter, Valid, Entries, Items;
    FirstCharacter(a);
    FirstCharacter(b);
    match (a, b) {
      case (Text(s), Text(t)) =>
        SameStrings(s, t);
      case (Arr(xs), Arr(ys)) =>
        SameTextSameItems(xs, ys);
        forall i | 0 <= i < |xs| ensures Same(xs[i], ys[i]) {
          SameTextMeansSame(xs[i], ys[i]);
        }
        SameArrays(xs, ys);
      case (Obj(ms), Obj(ns)) =>
        SameTextSameMembers(ms, ns);
        forall i | 0 <= i < |ms| ensures HasSame(ns, ms[i]) {
          var j := EntryOfBoth(ms, ns, i);
          SameTextMeansSame(ms[i].value, ns[j].value);
        }
        SameObjects(ms, ns);
      case _ =>
        ScalarTexts(a, b);
    }
  }

  lemma SameStrings(s: string, t: string)
    requires StableStringify(Text(s)) == StableStringify(Text(t))
    ensures Same(Text(s), Text(t))
  {
    hide Quoted;
    QuotedDelimits(s, "", t, "");
  }

  lemma SameArrays(xs: seq<Json>, ys: seq<Json>)
    requires |xs| == |ys| && forall i :: 0 <= i < |xs| ==> Same(xs[i], ys[i])
    ensures Same(Arr(xs), Arr(ys))
  {
  }

  lemma SameObjects(ms: seq<Member>, ns: seq<Member>)
    requires |ms| == |ns|
    requires forall i :: 0 <= i < |ms| ==> HasSame(ns, ms[i])
    ensures Same(Obj(ms), Obj(ns))
  {
  }

  lemma SameTextSameItems(xs: seq<Json>, ys: seq<Json>)
    requires Valid(Arr(xs)) && Valid(Arr(ys)) && StableStringify(Arr(xs)) == StableStringify(Arr(ys))
    ensures |xs| == |ys| && forall i :: 0 <= i < |xs| ==>
              Valid(xs[i]) && Valid(ys[i]) && StableStringify(xs[i]) == StableStringify(ys[i])
  {
    hide Join, Delimits;
    forall i, j | 0 <= i < |xs| && 0 <= j < |ys| ensures Delimits(StableStringify(xs[i]), StableStringify(ys[j])) {
      TextsDelimit(xs[i], ys[j]);
    }
    ArraysDelimit(xs, ys);
    forall i | 0 <= i < |xs| ensures StableStringify(xs[i]) == StableStringify(ys[i]) {
      assert Items(xs)[i] == Items(ys)[i];
    }
  }

  lemma SameTextSameMembers(ms: seq<Member>, ns: seq<Member>)
    requires Valid(Obj(ms)) && Valid(Obj(ns)) && StableStringify(Obj(ms)) == StableStringify(Obj(ns))
    ensures |ms| == |ns|
    ensures forall i :: 0 <= i < |ms| ==> Valid(ms[i].value)
    ensures forall i :: 0 <= i < |ns| ==> Valid(ns[i].value)
    ensures multiset(Entries(ms)) == multiset(Entries(ns))
  {
    hide StableStringify, Valid, Delimits, SortedByKey, Entries;
    UniqueInside(ms);
    UniqueInside(ns);
    forall i, j | 0 <= i < |ms| && 0 <= j < |ns|
      ensures Delimits(StableStringify(ms[i].value), StableStringify(ns[j].value))
    {
      TextsDelimit(ms[i].value, ns[j].value);
    }
    ObjectsDelimit(ms, ns);
    SortedMembers(ms);
    SortedMembers(ns);
  }

  lemma EntryOfBoth(ms: seq<Member>, ns: seq<Member>, i: nat) returns (j: nat)
    requires i < |ms| && multiset(Entries(ms)) == multiset(Entries(ns))
    ensures j < |ns| && ns[j].key == ms[i].key && StableStringify(ns[j].value) == StableStringify(ms[i].value)
  {
    hide StableStringify;
    assert Entries(ms)[i] in multiset(Entries(ns));
    j :| 0 <= j < |Entries(ns)| && Entries(ns)[j] == Entries(ms)[i];
  }

  lemma ScalarTexts(a: Json, b: Json)
    requires Valid(a) && Valid(b) && StableStringify(a) == StableStringify(b)
    requires !(a.Text? && b.Text?) && !(a.Arr? && b.Arr?) && !(a.Obj? && b.Obj?)
    ensures Same(a, b)
  {
    hide Join, Rendered, SortedByKey, Escaped;
    FirstCharacter(a);
    FirstCharacter(b);
    assert a.Number? ==> NumberChar(StableStringify(a)[0]);
    assert b.Number? ==> NumberChar(StableStringify(b)[0]);
  }

  lemma {:induction false} SameMeansSameText(a: Json, b: Json)
    requires Valid(a) && Valid(b) && Same(a, b)
    ensures StableStringify(a) == StableStringify(b)
    decreases a
  {
    hide Join, Rendered, SortedByKey, Quoted;
    match (a, b) {
      case (Arr(xs), Arr(ys)) =>
        forall i | 0 <= i < |xs| ensures Items(xs)[i] == Items(ys)[i] {
          SameMeansSameText(xs[i], ys[i]);
        }
        assert Items(xs) == Items(ys);
      case (Obj(ms), Obj(ns)) =>
        forall i | 0 <= i < |ms| ensures Entries(ms)[i] in Entries(ns) {
          assert HasSame(ns, ms[i]);
          var j :| 0 <= j < |ns| && ns[j].key == ms[i].key && Same(ms[i].value, ns[j].value);
          SameMeansSameText(ms[i].value, ns[j].value);
          assert Entries(ns)[j] == Entries(ms)[i];
        }
        EntriesAreDistinct(ms);
        EntriesAreDistinct(ns);
        SameEntries(Entries(ms), Entries(ns));
        SortingAscends(Entries(ms));
        SortingAscends(Entries(ns));
        AscendingIsUnique(SortedByKey(Entries(ms)), SortedByKey(Entries(ns)));
      case _ =>
    }
  }

  /** As many distinct entries, all of them found in the other list: the same entries. */
  lemma {:induction false} SameEntries(es: seq<Entry>, fs: seq<Entry>)
    requires DistinctKeys(es) && |es| == |fs| && forall i :: 0 <= i < |es| ==> es[i] in fs
    ensures multiset(es) == multiset(fs)
    decreases |es|
  {
    if es == [] {
      assert fs == [];
    } else {
      assert es[0] in fs;
      var j :| 0 <= j < |fs| && fs[j] == es[0];
      OthersStillThere(es, fs, j);
      SameEntries(es[1..], fs[..j] + fs[j + 1..]);
      PutBack(es, fs, j);
    }
  }

  lemma OthersStillThere(es: seq<Entry>, fs: seq<Entry>, j: nat)
    requires es != [] && DistinctKeys(es) && j < |fs| && fs[j] == es[0] && forall i :: 0 <= i < |es| ==> es[i] in fs
    ensures DistinctKeys(es[1..])
    ensures forall i :: 0 <= i < |es[1..]| ==> es[1..][i] in fs[..j] + fs[j + 1..]
  {
    var tail := es[1..];
    forall i | 0 <= i < |tail| ensures tail[i] in fs[..j] + fs[j + 1..] {
      assert tail[i] == es[i + 1] && tail[i].key != es[0].key;
      StillThere(fs, j, tail[i]);
    }
  }

  lemma PutBack(es: seq<Entry>, fs: seq<Entry>, j: nat)
    requires es != [] && j < |fs| && fs[j] == es[0] && multiset(es[1..]) == multiset(fs[..j] + fs[j + 1..])
    ensures multiset(es) == multiset(fs)
  {
    assert es == [es[0]] + es[1..];
    TakenOut(fs, j);
  }

  lemma TakenOut(fs: seq<Entry>, j: nat)
    requires j < |fs|
    ensures multiset(fs) == multiset(fs[..j] + fs[j + 1..]) + multiset{fs[j]}
  {
    assert fs == fs[..j] + [fs[j]] + fs[j + 1..];
  }

  lemma StillThere(fs: seq<Entry>, j: nat, e: Entry)
    requires j < |fs| && e in fs && e != fs[j]
    ensures e in fs[..j] + fs[j + 1..]
  {
    var k :| 0 <= k < |fs| && fs[k] == e;
    assert if k < j then (fs[..j] + fs[j + 1..])[k] == e else (fs[..j] + fs[j + 1..])[k - 1] == e;
  }

  /** The canonical text is the same exactly when the values are the same up to key order. */
  lemma SameTextIff(a: Json, b: Json)
    requires Valid(a) && Valid(b)
    ensures StableStringify(a) == StableStringify(b) <==> Same(a, b)
  {
    hide StableStringify, Same;
    if StableStringify(a) == StableStringify(b) {
      SameTextMeansSame(a, b);
    }
    if Same(a, b) {
      SameMeansSameText(a, b);
    }
  }
}
