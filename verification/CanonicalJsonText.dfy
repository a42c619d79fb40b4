/** The canonical text character by character: what scalars, strings, arrays and objects are written as. */
module CanonicalJsonText {
  import opened Options
  import opened CanonicalJson

  /** Scalars are written as JSON has them. */
  lemma TextOfScalars(text: string)
    ensures StableStringify(Null) == "null"
    ensures StableStringify(Bool(true)) == "true" && StableStringify(Bool(false)) == "false"
    ensures StableStringify(Number(text)) == text
  {
  }

  // ------------------------------------------------------------------ strings

  function HexValue(c: char): Option<nat> {
    if '0' <= c <= '9' then Some(c as int - '0' as int)
    else if 'a' <= c <= 'f' then Some(c as int - 'a' as int + 10)
    else if 'A' <= c <= 'F' then Some(c as int - 'A' as int + 10)
    else None
  }

  /** The character of an escape with one letter. */
  function Short(c: char): Option<char> {
    if c == '"' || c == '\\' || c == '/' then Some(c)
    else if c == 'b' then Some(8 as char)
    else if c == 'f' then Some(12 as char)
    else if c == 'n' then Some('\n')
    else if c == 'r' then Some('\r')
    else if c == 't' then Some('\t')
    else None
  }

  /** A reader of string literals, from behind the opening quote: the text must end with the closing one. */
  function ReadRest(t: string): Option<string>
    decreases |t|
  {
    if t == "" || t[0] < ' ' then None
    else if t[0] == '"' then if |t| == 1 then Some("") else None
    else if t[0] != '\\' then Then(t[0], ReadRest(t[1..]))
    else if |t| >= 2 && Short(t[1]).Some? then Then(Short(t[1]).value, ReadRest(t[2..]))
    else if |t| >= 6 && t[1] == 'u' && t[2] == '0' && t[3] == '0' && HexValue(t[4]).Some? && HexValue(t[5]).Some? then
      Then((HexValue(t[4]).value * 16 + HexValue(t[5]).value) as char, ReadRest(t[6..]))
    else None
  }

  function Then(c: char, rest: Option<string>): Option<string> {
    if rest.Some? then Some([c] + rest.value) else None
  }

  function ReadString(t: string): Option<string> {
    if t != "" && t[0] == '"' then ReadRest(t[1..]) else None
  }

  lemma ReadsOneBack(c: char, rest: string)
    ensures ReadRest(EscapedChar(c) + rest) == Then(c, ReadRest(rest))
  {
    var e := EscapedChar(c);
    assert (e + rest)[|e|..] == rest;
    if |e| == 6 {
      assert HexValue(HexDigit(c as int / 16)) == Some(c as int / 16);
      assert HexValue(HexDigit(c as int % 16)) == Some(c as int % 16);
    }
  }

  lemma {:induction false} ReadsRestBack(s: string)
    ensures ReadRest(Escaped(s) + ['"']) == Some(s)
  {
    hide EscapedChar;
    if s != "" {
      ReadsRestBack(s[1..]);
      ReadsOneBack(s[0], Escaped(s[1..]) + ['"']);
      assert Escaped(s) + ['"'] == EscapedChar(s[0]) + (Escaped(s[1..]) + ['"']);
      assert [s[0]] + s[1..] == s;
    }
  }

  /** A string is written as a literal that any JSON reader reads back as that string. */
  lemma StringsReadBack(s: string)
    ensures ReadString(StableStringify(Text(s))) == Some(s)
  {
    ReadsRestBack(s);
    assert Quoted(s)[1..] == Escaped(s) + ['"'];
  }

  /** Each character has the one spelling JSON.stringify gives it. */
  lemma SpellingOfACharacter(c: char)
    ensures var t := StableStringify(Text([c]));
            && (c == '"' ==> t == "\"\\\"\"") && (c == '\\' ==> t == "\"\\\\\"")
            && (c == '\n' ==> t == "\"\\n\"") && (c == '\r' ==> t == "\"\\r\"") && (c == '\t' ==> t == "\"\\t\"")
            && (c as int == 8 ==> t == "\"\\b\"") && (c as int == 12 ==> t == "\"\\f\"")
            && (c < ' ' && c !in {'\n', '\r', '\t'} && c as int != 8 && c as int != 12 ==>
                  |t| == 8 && t[..5] == "\"\\u00" && t[5] in "01" && t[6] in "0123456789abcdef")
            && (c >= ' ' && c != '"' && c != '\\' ==> t == "\"" + [c] + "\"")
  {
    assert Escaped([c]) == EscapedChar(c) + Escaped("") by {
      assert [c][1..] == "";
    }
    assert Escaped([c]) == EscapedChar(c);
  }

  // ------------------------------------------------------------------ arrays and objects

  lemma {:induction false} JoinOneMore(ts: seq<string>, t: string)
    ensures Join(ts + [t]) == if ts == [] then t else Join(ts) + "," + t
  {
    if ts != [] {
      assert (ts + [t])[1..] == ts[1..] + [t];
      JoinOneMore(ts[1..], t);
    }
  }

  lemma {:induction false} ItemsOneMore(items: seq<Json>, x: Json)
    ensures Items(items + [x]) == Items(items) + [StableStringify(x)]
  {
    hide StableStringify;
    if items != [] {
      assert (items + [x])[1..] == items[1..] + [x];
      ItemsOneMore(items[1..], x);
    }
  }

  /** An array is its items in order, in brackets, with commas between. */
  lemma TextOfArrays(items: seq<Json>, x: Json)
    ensures StableStringify(Arr([])) == "[]"
    ensures var t := StableStringify(Arr(items));
            && t != "" && t[|t| - 1] == ']'
            && StableStringify(Arr(items + [x])) ==
               t[..|t| - 1] + (if items == [] then "" else ",") + StableStringify(x) + "]"
  {
    ItemsOneMore(items, x);
    JoinOneMore(Items(items), StableStringify(x));
    assert Items([]) == [];
  }

  /** Key `a` is sorted before `b`: it is a beginning of it, or has the smaller character where they first differ. */
  predicate SortsBefore(a: string, b: string) {
    || a < b
    || exists k :: 0 <= k < |a| && k < |b| && a[..k] == b[..k] && a[k] < b[k]
  }

  lemma {:induction false} KeyLessIsSortsBefore(a: string, b: string)
    ensures KeyLess(a, b) <==> SortsBefore(a, b)
  {
    hide SortsBefore;
    if a != "" && b != "" && a[0] == b[0] {
      KeyLessIsSortsBefore(a[1..], b[1..]);
      TailsSortAlike(a, b);
    } else {
      HeadsDecide(a, b);
    }
  }

  lemma TailsSortAlike(a: string, b: string)
    requires a != "" && b != "" && a[0] == b[0]
    ensures SortsBefore(a, b) <==> SortsBefore(a[1..], b[1..])
  {
    var x, y := a[1..], b[1..];
    assert a == [a[0]] + x && b == [b[0]] + y;
    if k :| 0 <= k < |x| && k < |y| && x[..k] == y[..k] && x[k] < y[k] {
      assert a[..k + 1] == [a[0]] + x[..k] && b[..k + 1] == [b[0]] + y[..k];
      assert a[k + 1] < b[k + 1];
    }
    if k :| 0 <= k < |a| && k < |b| && a[..k] == b[..k] && a[k] < b[k] {
      assert k > 0 && x[..k - 1] == a[..k][1..] && y[..k - 1] == b[..k][1..];
      assert x[k - 1] < y[k - 1];
    }
  }

  lemma HeadsDecide(a: string, b: string)
    requires a == "" || b == "" || a[0] != b[0]
    ensures SortsBefore(a, b) <==> b != "" && (a == "" || a[0] < b[0])
  {
    if a != "" && b != "" {
      assert a[..0] == b[..0];
      forall k | 0 < k < |a| && k < |b| ensures a[..k] != b[..k] {
        assert a[..k][0] == a[0] && b[..k][0] == b[0];
      }
    }
  }

  lemma {:induction false} LargestGoesLast(x: Entry, es: seq<Entry>, e: Entry)
    requires !KeyLess(e.key, x.key)
    ensures InsertEntry(x, es + [e]) == InsertEntry(x, es) + [e]
  {
    hide KeyLess;
    if es != [] {
      assert (es + [e])[1..] == es[1..] + [e];
      LargestGoesLast(x, es[1..], e);
    }
  }

  lemma {:induction false} LargestIsSortedLast(es: seq<Entry>, e: Entry)
    requires forall i :: 0 <= i < |es| ==> !KeyLess(e.key, es[i].key)
    ensures SortedByKey(es + [e]) == SortedByKey(es) + [e]
  {
    hide KeyLess, InsertEntry;
    if es == [] {
      Alone(e);
    } else {
      assert (es + [e])[1..] == es[1..] + [e];
      LargestIsSortedLast(es[1..], e);
      LargestGoesLast(es[0], SortedByKey(es[1..]), e);
    }
  }

  lemma Alone(e: Entry)
    ensures SortedByKey([] + [e]) == SortedByKey([]) + [e]
  {
    assert [] + [e] == [e] && [e][1..] == [];
    assert InsertEntry(e, []) == [e] + [];
  }

  lemma {:induction false} RenderedOneMore(es: seq<Entry>, e: Entry)
    ensures Rendered(es + [e]) == Rendered(es) + [Quoted(e.key) + ":" + e.text]
    ensures |Rendered(es)| == |es|
  {
    hide Quoted;
    if es != [] {
      assert (es + [e])[1..] == es[1..] + [e];
      RenderedOneMore(es[1..], e);
    }
  }

  lemma {:induction false} EntriesOneMore(ms: seq<Member>, m: Member)
    ensures Entries(ms + [m]) == Entries(ms) + [Entry(m.key, StableStringify(m.value))]
  {
    hide StableStringify;
    if ms != [] {
      assert (ms + [m])[1..] == ms[1..] + [m];
      EntriesOneMore(ms[1..], m);
    }
  }

  lemma {:induction false} SortingKeepsLength(es: seq<Entry>)
    ensures |SortedByKey(es)| == |es|
  {
    hide KeyLess;
    if es != [] {
      SortingKeepsLength(es[1..]);
      InsertingAddsOne(es[0], SortedByKey(es[1..]));
    }
  }

  lemma {:induction false} InsertingAddsOne(e: Entry, es: seq<Entry>)
    ensures |InsertEntry(e, es)| == |es| + 1
  {
    hide KeyLess;
    if es != [] {
      InsertingAddsOne(e, es[1..]);
    }
  }

  /** An object is its members in braces, with commas between, the key that sorts last in last place. */
  lemma TextOfObjects(ms: seq<Member>, m: Member)
    requires forall i :: 0 <= i < |ms| ==> SortsBefore(ms[i].key, m.key)
    ensures StableStringify(Obj([])) == "{}"
    ensures var t := StableStringify(Obj(ms));
            && t != "" && t[|t| - 1] == '}'
            && StableStringify(Obj(ms + [m])) ==
               t[..|t| - 1] + (if ms == [] then "" else ",") + StableStringify(Text(m.key)) + ":"
               + StableStringify(m.value) + "}"
  {
    hide KeyLess, SortsBefore, SortedByKey, Rendered, Entries, Join, Quoted;
    var es, e := Entries(ms), Entry(m.key, StableStringify(m.value));
    EntriesOneMore(ms, m);
    forall i | 0 <= i < |es| ensures !KeyLess(e.key, es[i].key) {
      NotAfter(es[i].key, e.key);
    }
    LargestIsSortedLast(es, e);
    RenderedOneMore(SortedByKey(es), e);
    SortingKeepsLength(es);
    JoinOneMore(Rendered(SortedByKey(es)), Quoted(e.key) + ":" + e.text);
    NoMembers();
  }

  lemma NotAfter(a: string, b: string)
    requires SortsBefore(a, b)
    ensures !KeyLess(b, a)
  {
    KeyLessIsSortsBefore(a, b);
    OneWay(a, b);
  }

  lemma {:induction false} OneWay(a: string, b: string)
    requires KeyLess(a, b)
    ensures !KeyLess(b, a)
  {
    if a != "" && a[0] == b[0] {
      OneWay(a[1..], b[1..]);
    }
  }

  lemma NoMembers()
    ensures StableStringify(Obj([])) == "{}"
  {
    assert Entries([]) == [] && SortedByKey([]) == [] && Rendered([]) == [];
  }
}
