/** Deterministic JSON text: keys sorted at every level, scalars as JSON prints them. */
module CanonicalJson {

  /** A number carries the text JSON prints for it. */
  datatype Json =
    | Null
    | Bool(b: bool)
    | Number(text: string)
    | Text(s: string)
    | Arr(items: seq<Json>)
    | Obj(members: seq<Member>)

  datatype Member = Member(key: string, value: Json)

  // ------------------------------------------------------------------ scalars

  function HexDigit(d: nat): char
    requires d < 16
  {
    if d < 10 then ('0' as int + d) as char else ('a' as int + d - 10) as char
  }

  function EscapedChar(c: char): string {
    if c == '"' then ['\\', '"']
    else if c == '\\' then ['\\', '\\']
    else if c == '\n' then ['\\', 'n']
    else if c == '\r' then ['\\', 'r']
    else if c == '\t' then ['\\', 't']
    else if c as int == 8 then ['\\', 'b']
    else if c as int == 12 then ['\\', 'f']
    else if c < ' ' then ['\\', 'u', '0', '0', HexDigit(c as int / 16), HexDigit(c as int % 16)]
    else [c]
  }

  function Escaped(s: string): string {
    if s == "" then "" else EscapedChar(s[0]) + Escaped(s[1..])
  }

  function Quoted(s: string): string {
    ['"'] + Escaped(s) + ['"']
  }

  predicate NumberChar(c: char) {
    '0' <= c <= '9' || c == '-' || c == '+' || c == '.' || c == 'e' || c == 'E'
  }

  // ------------------------------------------------------------------ stableStringify

  /** The order of Array.sort() on keys. */
  predicate KeyLess(a: string, b: string) {
    if b == "" then false
    else if a == "" then true
    else if a[0] != b[0] then a[0] < b[0]
    else KeyLess(a[1..], b[1..])
  }

  datatype Entry = Entry(key: string, text: string)

  function InsertEntry(e: Entry, es: seq<Entry>): seq<Entry> {
    if es == [] || !KeyLess(es[0].key, e.key) then [e] + es else [es[0]] + InsertEntry(e, es[1..])
  }

  function SortedByKey(es: seq<Entry>): seq<Entry> {
    if es == [] then [] else InsertEntry(es[0], SortedByKey(es[1..]))
  }

  function Rendered(es: seq<Entry>): seq<string> {
    if es == [] then [] else [Quoted(es[0].key) + ":" + es[0].text] + Rendered(es[1..])
  }

  function Join(ts: seq<string>): string {
    if ts == [] then "" else if |ts| == 1 then ts[0] else ts[0] + "," + Join(ts[1..])
  }

  function Items(items: seq<Json>): (ts: seq<string>)
    ensures |ts| == |items| && forall i :: 0 <= i < |items| ==> ts[i] == StableStringify(items[i])
  {
    if items == [] then [] else [StableStringify(items[0])] + Items(items[1..])
  }

  function Entries(ms: seq<Member>): (es: seq<Entry>)
    ensures |es| == |ms| && forall i :: 0 <= i < |ms| ==> es[i] == Entry(ms[i].key, StableStringify(ms[i].value))
  {
    if ms == [] then [] else [Entry(ms[0].key, StableStringify(ms[0].value))] + Entries(ms[1..])
  }

  function StableStringify(j: Json): string {
    match j
    case Null => "null"
    case Bool(b) => if b then "true" else "false"
    case Number(text) => text
    case Text(s) => Quoted(s)
    case Arr(items) => "[" + Join(Items(items)) + "]"
    case Obj(members) => "{" + Join(Rendered(SortedByKey(Entries(members)))) + "}"
  }

  // ------------------------------------------------------------------ equal up to key order

  predicate UniqueKeys(ms: seq<Member>) {
    forall i, j :: 0 <= i < j < |ms| ==> ms[i].key != ms[j].key
  }

  /** Numbers are number texts and no object has a key twice. */
  predicate Valid(j: Json) {
    match j
    case Number(text) => text != "" && forall i :: 0 <= i < |text| ==> NumberChar(text[i])
    case Arr(items) => forall i :: 0 <= i < |items| ==> Valid(items[i])
    case Obj(ms) => UniqueKeys(ms) && forall i :: 0 <= i < |ms| ==> Valid(ms[i].value)
    case _ => true
  }

  /** The same value but for the order of the members of its objects. */
  predicate Same(a: Json, b: Json)
    decreases a
  {
    match (a, b)
    case (Arr(xs), Arr(ys)) => |xs| == |ys| && forall i :: 0 <= i < |xs| ==> Same(xs[i], ys[i])
    case (Obj(ms), Obj(ns)) =>
      && |ms| == |ns|
      && forall i :: 0 <= i < |ms| ==> HasSame(ns, ms[i])
    case _ => a == b && !a.Arr? && !a.Obj?
  }

  /** A member with this key and the same value. */
  predicate HasSame(ns: seq<Member>, m: Member)
    decreases m
  {
    exists j :: 0 <= j < |ns| && ns[j].key == m.key && Same(m.value, ns[j].value)
  }
}
