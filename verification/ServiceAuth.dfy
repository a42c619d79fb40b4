/** Signing a message payload and verifying it on the other side of the wire. */
module ServiceAuth {
  import opened Options
  import opened CanonicalJson
  import opened CanonicalJsonLaws
  import opened Octets

  const WINDOW_MS := 5 * 60 * 1000
  const ENVELOPE := "__svcAuth"

  /** SHA-256 in hex, HMAC in hex under a secret, hex decoding, and Number() on a timestamp. */
  datatype Primitives = Primitives(sha256: string -> string, hmac: (string, string) -> string,
                                   unhex: string -> Bytes, number: string -> Option<int>)

  function Canonical(c: Primitives, t: string, n: string, body: Json): string {
    "v1." + t + "." + n + "." + c.sha256(StableStringify(body))
  }

  function Find(ms: seq<Member>, key: string): Option<Json> {
    if ms == [] then None else if ms[0].key == key then Some(ms[0].value) else Find(ms[1..], key)
  }

  /** `delete rest[key]` on a copy. */
  function Without(ms: seq<Member>, key: string): seq<Member> {
    if ms == [] then [] else (if ms[0].key == key then [] else [ms[0]]) + Without(ms[1..], key)
  }

  /** `{ ...body, [key]: value }`: an existing member is replaced where it stands. */
  function With(ms: seq<Member>, key: string, value: Json): seq<Member> {
    if ms == [] then [Member(key, value)]
    else if ms[0].key == key then [Member(key, value)] + ms[1..]
    else [ms[0]] + With(ms[1..], key, value)
  }

  function Envelope(t: string, n: string, s: string): Json {
    Obj([Member("t", Text(t)), Member("n", Text(n)), Member("s", Text(s))])
  }

  /** `payload ?? {}` */
  function Body(payload: Json): Json {
    if payload.Null? then Obj([]) else payload
  }

  function Decimal(n: nat): string {
    (if n < 10 then "" else Decimal(n / 10)) + [('0' as int + n % 10) as char]
  }

  function Indexed(items: seq<Json>): seq<Member> {
    seq(|items|, i requires 0 <= i < |items| => Member(Decimal(i), items[i]))
  }

  /** What `{ ...body }` copies: members, items or characters under their indexes, nothing of other scalars. */
  function Spread(body: Json): seq<Member> {
    match body
    case Obj(ms) => ms
    case Arr(items) => Indexed(items)
    case Text(s) => Indexed(seq(|s|, i requires 0 <= i < |s| => Text([s[i]])))
    case _ => []
  }

  /** signServicePayload() at time text `t` with nonce `n`. */
  function Signed(c: Primitives, secret: string, payload: Json, t: string, n: string): seq<Member> {
    With(Spread(Body(payload)), ENVELOPE, Envelope(t, n, Signature(c, secret, payload, t, n)))
  }

  function Signature(c: Primitives, secret: string, payload: Json, t: string, n: string): string {
    c.hmac(secret, Canonical(c, t, n, Body(payload)))
  }

  datatype Auth = Auth(t: string, n: string, s: string)

  /** The envelope, if its three members are strings. */
  function ReadEnvelope(data: seq<Member>): Option<Auth> {
    match Find(data, ENVELOPE)
    case Some(Obj(ms)) =>
      (match (Find(ms, "t"), Find(ms, "n"), Find(ms, "s"))
       case (Some(Text(t)), Some(Text(n)), Some(Text(s))) => Some(Auth(t, n, s))
       case _ => None)
    case _ => None
  }

  /** verifyServicePayload() */
  predicate Verifies(c: Primitives, secret: string, data: Json, now: int) {
    if secret == "" || !data.Obj? then false
    else match ReadEnvelope(data.members)
      case None => false
      case Some(auth) =>
        match c.number(auth.t)
        case None => false
        case Some(ts) =>
          if now - ts > WINDOW_MS || ts - now > WINDOW_MS then false
          else
            var expected := c.hmac(secret, Canonical(c, auth.t, auth.n, Obj(Without(data.members, ENVELOPE))));
            var provided := c.unhex(auth.s);
            provided != [] && provided == c.unhex(expected)
  }

  // ------------------------------------------------------------------ members

  predicate HasKey(ms: seq<Member>, key: string) {
    exists i :: 0 <= i < |ms| && ms[i].key == key
  }

  lemma {:induction false} FindFinds(ms: seq<Member>, key: string)
    ensures Find(ms, key).Some? <==> HasKey(ms, key)
    ensures Find(ms, key).Some? ==> Member(key, Find(ms, key).value) in ms
    ensures UniqueKeys(ms) ==> forall i :: 0 <= i < |ms| && ms[i].key == key ==> Find(ms, key) == Some(ms[i].value)
  {
    if ms != [] {
      var rest := ms[1..];
      FindFinds(rest, key);
      assert forall i :: 0 < i < |ms| ==> ms[i] == rest[i - 1];
      assert forall i :: 0 <= i < |rest| ==> rest[i] == ms[i + 1];
    }
  }

  lemma KeyInHeadOrTail(ms: seq<Member>, key: string)
    requires ms != []
    ensures HasKey(ms, key) <==> ms[0].key == key || HasKey(ms[1..], key)
  {
    assert forall i :: 0 < i < |ms| ==> ms[i] == ms[1..][i - 1];
    assert forall i :: 0 <= i < |ms[1..]| ==> ms[1..][i] == ms[i + 1];
  }

  lemma UniqueTail(ms: seq<Member>)
    requires ms != [] && UniqueKeys(ms)
    ensures UniqueKeys(ms[1..]) && !HasKey(ms[1..], ms[0].key)
  {
    assert forall i :: 0 <= i < |ms[1..]| ==> ms[1..][i] == ms[i + 1];
  }

  lemma UniqueWithHead(m: Member, ms: seq<Member>)
    requires UniqueKeys(ms) && !HasKey(ms, m.key)
    ensures UniqueKeys([m] + ms)
  {
  }

  lemma {:induction false} WithoutMembers(ms: seq<Member>, key: string)
    ensures forall m :: m in Without(ms, key) <==> m in ms && m.key != key
  {
    if ms != [] {
      WithoutMembers(ms[1..], key);
      assert ms == [ms[0]] + ms[1..];
    }
  }

  lemma {:induction false} WithoutAKeyNotThere(ms: seq<Member>, key: string)
    requires !HasKey(ms, key)
    ensures Without(ms, key) == ms
  {
    hide HasKey;
    if ms != [] {
      KeyInHeadOrTail(ms, key);
      WithoutAKeyNotThere(ms[1..], key);
    }
  }

  lemma {:induction false} WithoutCounts(ms: seq<Member>, key: string)
    requires UniqueKeys(ms)
    ensures UniqueKeys(Without(ms, key)) && |Without(ms, key)| == |ms| - if HasKey(ms, key) then 1 else 0
    ensures forall k :: HasKey(Without(ms, key), k) ==> HasKey(ms, k)
  {
    hide HasKey, UniqueKeys;
    if ms == [] {
      NoKeys(key);
    } else {
      UniqueTail(ms);
      KeyInHeadOrTail(ms, key);
      WithoutCounts(ms[1..], key);
      var rest := Without(ms[1..], key);
      forall k ensures HasKey(Without(ms, key), k) ==> HasKey(ms, k) {
        KeyInHeadOrTail(ms, k);
        assert ([ms[0]] + rest)[1..] == rest;
        KeyInHeadOrTail([ms[0]] + rest, k);
        assert [] + rest == rest;
      }
      if ms[0].key == key {
        assert Without(ms, key) == rest;
      } else {
        UniqueWithHead(ms[0], rest);
      }
    }
  }

  lemma NoKeys(key: string)
    ensures !HasKey([], key) && UniqueKeys([])
  {
  }

  lemma WithoutContents(ms: seq<Member>, key: string)
    ensures forall m :: m in Without(ms, key) <==> m in ms && m.key != key
    ensures UniqueKeys(ms) ==> UniqueKeys(Without(ms, key))
    ensures UniqueKeys(ms) ==> |Without(ms, key)| == |ms| - if HasKey(ms, key) then 1 else 0
    ensures !HasKey(ms, key) ==> Without(ms, key) == ms
  {
    hide HasKey, UniqueKeys, Without;
    WithoutMembers(ms, key);
    if UniqueKeys(ms) {
      WithoutCounts(ms, key);
    }
    if !HasKey(ms, key) {
      WithoutAKeyNotThere(ms, key);
    }
  }

  /** Adding the envelope and taking it off again leaves the payload, less any envelope it had. */
  lemma {:induction false} WithThenWithout(ms: seq<Member>, key: string, value: Json)
    requires UniqueKeys(ms)
    ensures Without(With(ms, key, value), key) == Without(ms, key)
    ensures Find(With(ms, key, value), key) == Some(value)
    ensures UniqueKeys(With(ms, key, value))
    ensures forall k :: HasKey(With(ms, key, value), k) ==> k == key || HasKey(ms, k)
    ensures forall m :: m in With(ms, key, value) ==> m == Member(key, value) || m in ms
  {
    hide HasKey, UniqueKeys;
    var r := With(ms, key, value);
    if ms == [] {
      WithFirst(key, value, []);
      NoKeys(key);
      UniqueWithHead(Member(key, value), []);
      assert [Member(key, value)] + [] == [Member(key, value)];
      forall k ensures HasKey(r, k) ==> k == key {
        KeyInHeadOrTail(r, k);
        NoKeys(k);
      }
    } else {
      var rest := ms[1..];
      UniqueTail(ms);
      var tail := if ms[0].key == key then rest else With(rest, key, value);
      var head := if ms[0].key == key then Member(key, value) else ms[0];
      assert r == [head] + tail && r[1..] == tail;
      if ms[0].key != key {
        WithThenWithout(rest, key, value);
      }
      UniqueWithHead(head, tail);
      forall k ensures HasKey(r, k) ==> k == key || HasKey(ms, k) {
        KeyInHeadOrTail(r, k);
        KeyInHeadOrTail(ms, k);
      }
      assert forall m :: m in r ==> m == head || m in tail;
      assert forall m :: m in rest ==> m in ms;
    }
  }

  lemma WithFirst(key: string, value: Json, rest: seq<Member>)
    ensures Without([Member(key, value)] + rest, key) == Without(rest, key)
    ensures Find([Member(key, value)] + rest, key) == Some(value)
  {
    assert ([Member(key, value)] + rest)[1..] == rest;
  }

  // ------------------------------------------------------------------ the same on the other side

  lemma SameIsSymmetric(a: Json, b: Json)
    requires Valid(a) && Valid(b) && Same(a, b)
    ensures Same(b, a)
  {
    SameTextIff(a, b);
    SameTextIff(b, a);
  }

  lemma SameFind(ms: seq<Member>, ns: seq<Member>, key: string)
    requires UniqueKeys(ns) && Same(Obj(ms), Obj(ns)) && Find(ms, key).Some?
    ensures Find(ns, key).Some? && Same(Find(ms, key).value, Find(ns, key).value)
  {
    FindFinds(ms, key);
    FindFinds(ns, key);
    var i :| 0 <= i < |ms| && ms[i] == Member(key, Find(ms, key).value);
    assert HasSame(ns, ms[i]);
  }

  lemma SameWithout(ms: seq<Member>, ns: seq<Member>, key: string)
    requires Valid(Obj(ms)) && Valid(Obj(ns)) && Same(Obj(ms), Obj(ns))
    ensures Valid(Obj(Without(ms, key))) && Valid(Obj(Without(ns, key)))
    ensures Same(Obj(Without(ms, key)), Obj(Without(ns, key)))
  {
    hide Valid, Same, Without, HasSame, Find;
    WithoutIsValid(ms, key);
    WithoutIsValid(ns, key);
    SameSizeWithout(ms, ns, key);
    var a := Without(ms, key);
    forall i | 0 <= i < |a| ensures HasSame(Without(ns, key), a[i]) {
      StillSame(ms, ns, key, a[i]);
    }
    SameObjects(a, Without(ns, key));
  }

  lemma SameSizeWithout(ms: seq<Member>, ns: seq<Member>, key: string)
    requires Valid(Obj(ms)) && Valid(Obj(ns)) && Same(Obj(ms), Obj(ns))
    ensures |Without(ms, key)| == |Without(ns, key)|
  {
    hide Valid, Without, HasSame, Find, HasKey;
    assert |ms| == |ns|;
    hide Same;
    SameIsSymmetric(Obj(ms), Obj(ns));
    UniqueInside(ms);
    UniqueInside(ns);
    FindFinds(ms, key);
    FindFinds(ns, key);
    if Find(ms, key).Some? {
      SameFind(ms, ns, key);
    }
    if Find(ns, key).Some? {
      SameFind(ns, ms, key);
    }
    WithoutContents(ms, key);
    WithoutContents(ns, key);
  }

  lemma StillSame(ms: seq<Member>, ns: seq<Member>, key: string, m: Member)
    requires Same(Obj(ms), Obj(ns)) && m in Without(ms, key)
    ensures HasSame(Without(ns, key), m)
  {
    WithoutMembers(ms, key);
    WithoutMembers(ns, key);
    var k :| 0 <= k < |ms| && ms[k] == m;
    assert HasSame(ns, ms[k]);
    var j :| 0 <= j < |ns| && ns[j].key == m.key && Same(m.value, ns[j].value);
    var b := Without(ns, key);
    assert ns[j] in b;
    var l :| 0 <= l < |b| && b[l] == ns[j];
  }

  lemma WithoutIsValid(ms: seq<Member>, key: string)
    requires Valid(Obj(ms))
    ensures Valid(Obj(Without(ms, key)))
  {
    WithoutContents(ms, key);
    forall i | 0 <= i < |Without(ms, key)| ensures Valid(Without(ms, key)[i].value) {
      assert Without(ms, key)[i] in ms;
      var j :| 0 <= j < |ms| && ms[j] == Without(ms, key)[i];
    }
  }

  /** The envelope reads the same whatever the order of its members and of those around it. */
  lemma EnvelopeArrives(c: Primitives, signed: seq<Member>, ns: seq<Member>, t: string, n: string, s: string)
    requires UniqueKeys(ns) && Valid(Obj(ns)) && Same(Obj(signed), Obj(ns))
             && Find(signed, ENVELOPE) == Some(Envelope(t, n, s))
    ensures ReadEnvelope(ns) == Some(Auth(t, n, s))
  {
    hide Valid;
    SameFind(signed, ns, ENVELOPE);
    FindFinds(ns, ENVELOPE);
    UniqueInside(ns);
    var env := Find(ns, ENVELOPE).value;
    assert Valid(env) by {
      var i :| 0 <= i < |ns| && ns[i] == Member(ENVELOPE, env);
    }
    var own := Envelope(t, n, s).members;
    assert Same(Obj(own), env) && env.Obj?;
    UniqueInside(env.members);
    EnvelopeMembers(t, n, s);
    SameFind(own, env.members, "t");
    SameFind(own, env.members, "n");
    SameFind(own, env.members, "s");
  }

  lemma EnvelopeMembers(t: string, n: string, s: string)
    ensures var ms := Envelope(t, n, s).members;
            Find(ms, "t") == Some(Text(t)) && Find(ms, "n") == Some(Text(n)) && Find(ms, "s") == Some(Text(s))
  {
    FindFinds(Envelope(t, n, s).members, "t");
    FindFinds(Envelope(t, n, s).members, "n");
    FindFinds(Envelope(t, n, s).members, "s");
    var ms := Envelope(t, n, s).members;
    assert ms[0].key == "t" && ms[1].key == "n" && ms[2].key == "s";
    assert "t"[0] != "n"[0] && "n"[0] != "s"[0] && "t"[0] != "s"[0];
    assert UniqueKeys(ms);
  }

  lemma {:induction false} DecimalIsInjective(i: nat, j: nat)
    requires Decimal(i) == Decimal(j)
    ensures i == j
  {
    var a, b := Decimal(i), Decimal(j);
    assert a[|a| - 1] == b[|b| - 1] && a[..|a| - 1] == b[..|b| - 1];
    assert i >= 10 ==> a[..|a| - 1] == Decimal(i / 10) && Decimal(i / 10) != "";
    assert j >= 10 ==> b[..|b| - 1] == Decimal(j / 10) && Decimal(j / 10) != "";
    if i >= 10 {
      DecimalIsInjective(i / 10, j / 10);
    }
  }

  lemma IndexesAreUnique(items: seq<Json>)
    ensures UniqueKeys(Indexed(items))
  {
    forall i, j | 0 <= i < j < |items| ensures Indexed(items)[i].key != Indexed(items)[j].key {
      if Decimal(i) == Decimal(j) {
        DecimalIsInjective(i, j);
      }
    }
  }

  lemma SpreadIsValid(body: Json)
    requires Valid(body)
    ensures Valid(Obj(Spread(body)))
  {
    match body
    case Arr(items) => IndexesAreUnique(items);
    case Text(s) => IndexesAreUnique(seq(|s|, i requires 0 <= i < |s| => Text([s[i]])));
    case _ =>
  }

  lemma SignedIsValid(c: Primitives, secret: string, payload: Json, t: string, n: string)
    requires Valid(payload)
    ensures Valid(Obj(Signed(c, secret, payload, t, n)))
  {
    var s, own := Signature(c, secret, payload, t, n), Spread(Body(payload));
    var signed := Signed(c, secret, payload, t, n);
    SpreadIsValid(Body(payload));
    WithThenWithout(own, ENVELOPE, Envelope(t, n, s));
    EnvelopeIsValid(t, n, s);
    forall i | 0 <= i < |signed| ensures Valid(signed[i].value) {
      assert signed[i] in signed;
      if signed[i] in own {
        var j :| 0 <= j < |own| && own[j] == signed[i];
      }
    }
  }

  lemma EnvelopeIsValid(t: string, n: string, s: string)
    ensures Valid(Envelope(t, n, s))
  {
    var ms := Envelope(t, n, s).members;
    assert ms[0].key == "t" && ms[1].key == "n" && ms[2].key == "s";
    assert "t"[0] != "n"[0] && "n"[0] != "s"[0] && "t"[0] != "s"[0];
  }

  // ------------------------------------------------------------------ what verification comes to

  predicate InWindow(c: Primitives, t: string, now: int) {
    c.number(t).Some? && now - c.number(t).value <= WINDOW_MS && c.number(t).value - now <= WINDOW_MS
  }

  /** Signing a payload and receiving it with its keys in any order: it verifies against its own members. */
  lemma VerificationComparesBodies(c: Primitives, secret: string, payload: Json, t: string, n: string,
                                   received: seq<Member>, now: int)
    requires Valid(payload) && Valid(Obj(received)) && secret != ""
    requires Same(Obj(Signed(c, secret, payload, t, n)), Obj(received))
    requires c.unhex(Signature(c, secret, payload, t, n)) != []
    ensures Verifies(c, secret, Obj(received), now) <==>
            InWindow(c, t, now) &&
            c.unhex(Signature(c, secret, payload, t, n)) ==
            c.unhex(c.hmac(secret, Canonical(c, t, n, Obj(Without(Spread(Body(payload)), ENVELOPE)))))
  {
    hide Valid, StableStringify, Same, Spread;
    var s, own := Signature(c, secret, payload, t, n), Spread(Body(payload));
    var signed := Signed(c, secret, payload, t, n);
    BodyIsValid(payload);
    SpreadIsValid(Body(payload));
    UniqueInside(own);
    UniqueInside(received);
    SignedIsValid(c, secret, payload, t, n);
    WithThenWithout(own, ENVELOPE, Envelope(t, n, s));
    EnvelopeArrives(c, signed, received, t, n, s);
    SameWithout(signed, received, ENVELOPE);
    SameTextIff(Obj(Without(signed, ENVELOPE)), Obj(Without(received, ENVELOPE)));
  }

  lemma BodyIsValid(payload: Json)
    requires Valid(payload)
    ensures Valid(Body(payload))
  {
  }

  /** An object without an envelope of its own, or nothing, which is sent as an empty object. */
  predicate Plain(payload: Json) {
    payload.Null? || (payload.Obj? && !HasKey(payload.members, ENVELOPE))
  }

  /**
   * What is sent for a plain payload: its own members as they are, and an envelope with the time, the nonce
   * and the signature of version, time, nonce and the hash of the canonical text.
   */
  lemma WhatIsSent(c: Primitives, secret: string, payload: Json, t: string, n: string)
    requires Valid(payload) && Plain(payload)
    ensures var body := if payload.Null? then Obj([]) else payload;
            var s := c.hmac(secret, "v1." + t + "." + n + "." + c.sha256(StableStringify(body)));
            var envelope := Obj([Member("t", Text(t)), Member("n", Text(n)), Member("s", Text(s))]);
            forall m :: m in Signed(c, secret, payload, t, n) <==>
              m in body.members || m == Member("__svcAuth", envelope)
  {
    hide StableStringify, Valid;
    var own, s := Spread(Body(payload)), Signature(c, secret, payload, t, n);
    var signed := Signed(c, secret, payload, t, n);
    BodyIsValid(payload);
    UniqueInside(own);
    WithThenWithout(own, ENVELOPE, Envelope(t, n, s));
    WithoutContents(own, ENVELOPE);
    WithoutContents(signed, ENVELOPE);
    FindFinds(signed, ENVELOPE);
    forall m | m in signed && m.key == ENVELOPE ensures m == Member(ENVELOPE, Envelope(t, n, s)) {
      var i :| 0 <= i < |signed| && signed[i] == m;
    }
    forall m | m in own ensures m.key != ENVELOPE {
      var i :| 0 <= i < |own| && own[i] == m;
    }
  }

  /** Without a secret, an object, an envelope in it, or a decodable signature nothing verifies. */
  lemma RefusedOutright(c: Primitives, secret: string, data: Json, now: int)
    requires || secret == "" || !data.Obj? || (forall s :: c.unhex(s) == [])
             || (forall m :: m in data.members ==> m.key != "__svcAuth")
    ensures !Verifies(c, secret, data, now)
  {
    if data.Obj? {
      FindFinds(data.members, ENVELOPE);
    }
  }

  /** A plain payload verifies, in whatever key order it arrives, exactly within five minutes either way. */
  lemma VerifiesWithinTheWindowIff(c: Primitives, secret: string, payload: Json, t: string, n: string,
                                   received: seq<Member>, now: int)
    requires Valid(payload) && Valid(Obj(received)) && secret != "" && Plain(payload)
    requires Same(Obj(Signed(c, secret, payload, t, n)), Obj(received))
    requires c.unhex(Signature(c, secret, payload, t, n)) != []
    ensures Verifies(c, secret, Obj(received), now) <==>
            c.number(t).Some? && -300000 <= now - c.number(t).value <= 300000
  {
    hide Verifies, Valid, Same;
    VerificationComparesBodies(c, secret, payload, t, n, received, now);
    WithoutContents(Spread(Body(payload)), ENVELOPE);
  }

  /** No two bodies get the same signature for one timestamp and nonce. */
  ghost predicate CollisionFree(c: Primitives, secret: string, t: string, n: string) {
    forall a, b :: Valid(a) && Valid(b)
        && c.unhex(c.hmac(secret, Canonical(c, t, n, a))) == c.unhex(c.hmac(secret, Canonical(c, t, n, b)))
      ==> StableStringify(a) == StableStringify(b)
  }

  /**
   * Of all JSON values, a plain payload alone verifies: one that has a `__svcAuth` member signs one
   * body and verifies another, and so does an array or a scalar, which is sent as an object.
   */
  lemma VerifiesIffNoEnvelopeOfItsOwn(c: Primitives, secret: string, payload: Json, t: string, n: string,
                                      received: seq<Member>, now: int)
    requires Valid(payload) && Valid(Obj(received)) && secret != "" && CollisionFree(c, secret, t, n)
    requires Same(Obj(Signed(c, secret, payload, t, n)), Obj(received))
    requires c.number(t).Some? && -300000 <= now - c.number(t).value <= 300000
    requires c.unhex(Signature(c, secret, payload, t, n)) != []
    ensures Verifies(c, secret, Obj(received), now) <==> Plain(payload)
  {
    hide Verifies, Valid, StableStringify, Spread, Same;
    var own := Spread(Body(payload));
    VerificationComparesBodies(c, secret, payload, t, n, received, now);
    BodyIsValid(payload);
    SpreadIsValid(Body(payload));
    WithoutIsValid(own, ENVELOPE);
    SameTextIff(Body(payload), Obj(Without(own, ENVELOPE)));
    SameOnlyIfPlain(payload);
  }

  /** The body that is verified is the one that was signed only for a plain payload. */
  lemma SameOnlyIfPlain(payload: Json)
    requires Valid(payload)
    ensures Same(Body(payload), Obj(Without(Spread(Body(payload)), ENVELOPE))) <==> Plain(payload)
  {
    var body := Body(payload);
    if body.Obj? {
      BodyIsValid(payload);
      UniqueInside(body.members);
      WithoutContents(body.members, ENVELOPE);
      if !HasKey(body.members, ENVELOPE) {
        SameTextIff(body, body);
      }
    }
  }

  /**
   * Under the envelope of one payload no other body verifies: what verifies is that payload, up to
   * key order. A member the wire drops (one that was undefined, which signs like null) is refused.
   */
  lemma OnlyTheSignedBodyVerifies(c: Primitives, secret: string, payload: Json, t: string, n: string,
                                  received: seq<Member>, now: int)
    requires Valid(payload) && Valid(Obj(received)) && CollisionFree(c, secret, t, n)
    requires ReadEnvelope(received) == Some(Auth(t, n, Signature(c, secret, payload, t, n)))
    requires Verifies(c, secret, Obj(received), now)
    ensures Same(Body(payload), Obj(Without(received, ENVELOPE)))
  {
    hide Valid, StableStringify, Same;
    BodyIsValid(payload);
    WithoutIsValid(received, ENVELOPE);
    SameTextIff(Body(payload), Obj(Without(received, ENVELOPE)));
  }
}
