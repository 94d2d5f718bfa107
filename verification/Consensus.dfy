/**
 The cross-broker agreement buffer of manager/src/core/consensus.py. The dictionary of
 pending signals is a sequence in insertion order with distinct keys.
 */
module Consensus {
  import opened Domain

  type Broker = string

  /** A time of 0 stands for an absent one: the source falls through both. */
  datatype Signal = Signal(symbol: string, direction: string, setupCandleOpenAt: int, createdAt: int, payload: string)

  datatype Key = Key(symbol: string, direction: string, at: int)

  datatype Pending = Pending(signal: Signal, brokers: seq<Broker>, expiresAt: real)

  datatype Emission = Emission(signal: Signal, consensus: seq<Broker>)

  datatype Op = Push(signal: Signal, broker: Broker, now: real) | Drain(now: real)

  function KeyOf(s: Signal): Key {
    Key(s.symbol, s.direction, if s.setupCandleOpenAt != 0 then s.setupCandleOpenAt else s.createdAt)
  }

  // ----- The dictionary -----

  function Find(s: seq<Pending>, key: Key): (r: Option<Pending>)
    ensures r.Some? ==> r.value in s && KeyOf(r.value.signal) == key
    ensures r == None ==> forall p <- s :: KeyOf(p.signal) != key
  {
    if s == [] then None
    else if KeyOf(s[0].signal) == key then Some(s[0])
    else Find(s[1..], key)
  }

  function Without(s: seq<Pending>, keys: set<Key>): seq<Pending> {
    if s == [] then []
    else (if KeyOf(s[0].signal) in keys then [] else [s[0]]) + Without(s[1..], keys)
  }

  function Expired(s: seq<Pending>, now: real): (r: seq<Pending>)
    ensures forall p <- r :: p in s && p.expiresAt <= now
  {
    if s == [] then []
    else (if s[0].expiresAt <= now then [s[0]] else []) + Expired(s[1..], now)
  }

  function Keys(s: seq<Pending>): set<Key> {
    set p <- s :: KeyOf(p.signal)
  }

  predicate Distinct(s: seq<Pending>) {
    s != [] ==> KeyOf(s[0].signal) !in Keys(s[1..]) && Distinct(s[1..])
  }

  function Emissions(s: seq<Pending>): seq<Emission> {
    seq(|s|, i requires 0 <= i < |s| => Emission(s[i].signal, s[i].brokers))
  }

  // ----- One operation -----

  function Step(s: seq<Pending>, window: real, op: Op): (seq<Pending>, seq<Emission>) {
    match op
    case Push(signal, broker, now) =>
      (match Find(s, KeyOf(signal))
       case None => (s + [Pending(signal, [broker], now + window)], [])
       case Some(p) =>
         if broker in p.brokers then (s, [])
         else (Without(s, {KeyOf(signal)}), [Emission(p.signal, p.brokers + [broker])]))
    case Drain(now) =>
      (Without(s, Keys(Expired(s, now))), Emissions(Expired(s, now)))
  }

  /** Distinct keys, one broker each: a second broker always empties the entry. */
  predicate Buffer(s: seq<Pending>) {
    Distinct(s) && forall p <- s :: |p.brokers| == 1
  }

  // ----- Whole runs -----

  function State(ops: seq<Op>, window: real): seq<Pending> {
    if ops == [] then []
    else Step(State(ops[..|ops| - 1], window), window, ops[|ops| - 1]).0
  }

  function Emitted(ops: seq<Op>, window: real): seq<Emission> {
    if ops == [] then []
    else
      var before := ops[..|ops| - 1];
      Emitted(before, window) + Step(State(before, window), window, ops[|ops| - 1]).1
  }

  type Claim = (Key, Broker)

  function ClaimsOf(key: Key, brokers: seq<Broker>): multiset<Claim> {
    if brokers == [] then multiset{} else multiset{(key, brokers[0])} + ClaimsOf(key, brokers[1..])
  }

  function Waiting(s: seq<Pending>): multiset<Claim> {
    if s == [] then multiset{} else ClaimsOf(KeyOf(s[0].signal), s[0].brokers) + Waiting(s[1..])
  }

  function Sent(es: seq<Emission>): multiset<Claim> {
    if es == [] then multiset{} else ClaimsOf(KeyOf(es[0].signal), es[0].consensus) + Sent(es[1..])
  }

  /** What a push claims, unless the same broker's claim on the key is still waiting. */
  function Accepted(s: seq<Pending>, op: Op): multiset<Claim> {
    match op
    case Push(signal, broker, _) =>
      var p := Find(s, KeyOf(signal));
      if p.Some? && broker in p.value.brokers then multiset{} else multiset{(KeyOf(signal), broker)}
    case Drain(_) => multiset{}
  }

  function AllAccepted(ops: seq<Op>, window: real): multiset<Claim> {
    if ops == [] then multiset{}
    else
      var before := ops[..|ops| - 1];
      AllAccepted(before, window) + Accepted(State(before, window), ops[|ops| - 1])
  }

  // ----- Lemmas about the dictionary -----

  lemma {:induction false} WithoutMembers(s: seq<Pending>, keys: set<Key>)
    ensures forall p :: p in Without(s, keys) <==> p in s && KeyOf(p.signal) !in keys
  {
    if s != [] {
      WithoutMembers(s[1..], keys);
      assert s == [s[0]] + s[1..];
    }
  }

  lemma WithoutCons(p: Pending, rest: seq<Pending>, keys: set<Key>)
    ensures Without([p] + rest, keys)
         == if KeyOf(p.signal) in keys then Without(rest, keys) else [p] + Without(rest, keys)
  {
    assert ([p] + rest)[1..] == rest;
  }

  lemma BufferCons(p: Pending, rest: seq<Pending>)
    ensures Buffer([p] + rest) <==> Buffer(rest) && KeyOf(p.signal) !in Keys(rest) && |p.brokers| == 1
  {
    var s := [p] + rest;
    assert s[1..] == rest && s[0] == p && p in s;
    assert forall q <- rest :: q in s;
  }

  lemma WaitingCons(p: Pending, rest: seq<Pending>)
    ensures Waiting([p] + rest) == ClaimsOf(KeyOf(p.signal), p.brokers) + Waiting(rest)
  {
    assert ([p] + rest)[1..] == rest;
  }

  lemma {:induction false} WithoutKeepsBuffer(s: seq<Pending>, keys: set<Key>)
    requires Buffer(s)
    ensures Buffer(Without(s, keys))
  {
    if s != [] {
      var p, rest := s[0], s[1..];
      assert s == [p] + rest;
      BufferCons(p, rest);
      WithoutKeepsBuffer(rest, keys);
      WithoutMembers(rest, keys);
      WithoutCons(p, rest, keys);
      BufferCons(p, Without(rest, keys));
    }
  }

  lemma {:induction false} WithoutTwice(s: seq<Pending>, a: set<Key>, b: set<Key>)
    ensures Without(Without(s, a), b) == Without(s, a + b)
  {
    if s != [] {
      WithoutTwice(s[1..], a, b);
      var rest := Without(s[1..], a);
      assert ([s[0]] + rest)[1..] == rest;
      assert KeyOf(s[0].signal) in a ==> Without(s, a) == rest;
    }
  }

  lemma {:induction false} SnocKeepsBuffer(s: seq<Pending>, p: Pending)
    requires Buffer(s) && KeyOf(p.signal) !in Keys(s) && |p.brokers| == 1
    ensures Buffer(s + [p])
  {
    if s != [] {
      assert s == [s[0]] + s[1..];
      SnocKeepsBuffer(s[1..], p);
      assert (s + [p])[1..] == s[1..] + [p];
    }
  }

  lemma StepKeepsBuffer(s: seq<Pending>, window: real, op: Op)
    requires Buffer(s)
    ensures Buffer(Step(s, window, op).0)
  {
    match op
    case Push(signal, broker, now) =>
      if Find(s, KeyOf(signal)).None? {
        SnocKeepsBuffer(s, Pending(signal, [broker], now + window));
      } else {
        WithoutKeepsBuffer(s, {KeyOf(signal)});
      }
    case Drain(now) => WithoutKeepsBuffer(s, Keys(Expired(s, now)));
  }

  lemma {:induction false} StateIsBuffer(ops: seq<Op>, window: real)
    ensures Buffer(State(ops, window))
  {
    if ops != [] {
      StateIsBuffer(ops[..|ops| - 1], window);
      StepKeepsBuffer(State(ops[..|ops| - 1], window), window, ops[|ops| - 1]);
    }
  }

  // ----- Conservation -----

  lemma {:induction false} WaitingSplits(s: seq<Pending>, t: seq<Pending>)
    ensures Waiting(s + t) == Waiting(s) + Waiting(t)
  {
    if s == [] {
      assert s + t == t;
    } else {
      assert (s + t)[1..] == s[1..] + t;
      WaitingSplits(s[1..], t);
    }
  }

  lemma {:induction false} SentSplits(a: seq<Emission>, b: seq<Emission>)
    ensures Sent(a + b) == Sent(a) + Sent(b)
  {
    if a == [] {
      assert a + b == b;
    } else {
      assert (a + b)[1..] == a[1..] + b;
      SentSplits(a[1..], b);
    }
  }

  lemma {:induction false} WithoutNone(s: seq<Pending>, keys: set<Key>)
    requires keys !! Keys(s)
    ensures Without(s, keys) == s
  {
    if s != [] {
      assert s[0] in s && Keys(s[1..]) <= Keys(s);
      WithoutNone(s[1..], keys);
    }
  }

  lemma {:induction false} RemovalReleasesEntry(s: seq<Pending>, key: Key)
    requires Buffer(s) && Find(s, key).Some?
    ensures Waiting(s) == Waiting(Without(s, {key})) + ClaimsOf(key, Find(s, key).value.brokers)
  {
    hide Waiting, Without, ClaimsOf, Buffer;
    var p, rest := s[0], s[1..];
    assert s == [p] + rest;
    BufferCons(p, rest);
    WaitingCons(p, rest);
    WithoutCons(p, rest, {key});
    if KeyOf(p.signal) == key {
      WithoutNone(rest, {key});
    } else {
      RemovalReleasesEntry(rest, key);
      WaitingCons(p, Without(rest, {key}));
    }
  }

  lemma {:induction false} ExpiredMembers(s: seq<Pending>, now: real)
    ensures forall p :: p in Expired(s, now) <==> p in s && p.expiresAt <= now
  {
    if s != [] {
      ExpiredMembers(s[1..], now);
      assert s == [s[0]] + s[1..];
    }
  }

  lemma ExpiredCons(p: Pending, rest: seq<Pending>, now: real)
    ensures Expired([p] + rest, now) == if p.expiresAt <= now then [p] + Expired(rest, now) else Expired(rest, now)
  {
    assert ([p] + rest)[1..] == rest;
  }

  lemma EmissionsCons(p: Pending, rest: seq<Pending>)
    ensures Emissions([p] + rest) == [Emission(p.signal, p.brokers)] + Emissions(rest)
  {
  }

  lemma SentCons(e: Emission, rest: seq<Emission>)
    ensures Sent([e] + rest) == ClaimsOf(KeyOf(e.signal), e.consensus) + Sent(rest)
  {
    assert ([e] + rest)[1..] == rest;
  }

  /** Deleting the expired keys keeps exactly the entries that are not expired. */
  lemma DrainKeepsTheRest(s: seq<Pending>, now: real)
    requires Buffer(s)
    ensures forall p :: p in Without(s, Keys(Expired(s, now))) <==> p in s && p.expiresAt > now
  {
    var keys := Keys(Expired(s, now));
    WithoutMembers(s, keys);
    ExpiredMembers(s, now);
    forall p | p in s && KeyOf(p.signal) in keys ensures p.expiresAt <= now {
      var q :| q in Expired(s, now) && KeyOf(q.signal) == KeyOf(p.signal);
      SameKeySameEntry(s, p, q);
    }
  }

  lemma {:induction false} DrainSplits(s: seq<Pending>, now: real)
    requires Buffer(s)
    ensures Waiting(s) == Waiting(Without(s, Keys(Expired(s, now)))) + Sent(Emissions(Expired(s, now)))
  {
    if s != [] {
      hide Waiting, Without, ClaimsOf, Sent, Emissions, Expired, Buffer;
      var p, rest := s[0], s[1..];
      assert s == [p] + rest;
      BufferCons(p, rest);
      DrainSplits(rest, now);
      WaitingCons(p, rest);
      ExpiredCons(p, rest, now);
      ExpiredMembers(rest, now);
      var tail, keys := Expired(rest, now), Keys(Expired(s, now));
      WithoutCons(p, rest, keys);
      assert KeyOf(p.signal) !in Keys(tail);
      if p.expiresAt <= now {
        KeysCons(p, tail);
        SameWithout(rest, Keys(tail), keys);
        EmissionsCons(p, tail);
        SentCons(Emission(p.signal, p.brokers), Emissions(tail));
      } else {
        WaitingCons(p, Without(rest, keys));
      }
    }
  }

  lemma KeysSnoc(s: seq<Pending>, p: Pending)
    ensures Keys(s + [p]) == Keys(s) + {KeyOf(p.signal)}
  {
    assert forall q :: q in s + [p] <==> q == p || q in s;
  }

  lemma KeysCons(p: Pending, rest: seq<Pending>)
    ensures Keys([p] + rest) == {KeyOf(p.signal)} + Keys(rest)
  {
    assert forall q :: q in [p] + rest <==> q == p || q in rest;
  }

  lemma {:induction false} SameWithout(s: seq<Pending>, a: set<Key>, b: set<Key>)
    requires forall k <- Keys(s) :: k in a <==> k in b
    ensures Without(s, a) == Without(s, b)
  {
    if s != [] {
      assert s[0] in s && KeyOf(s[0].signal) in Keys(s) && Keys(s[1..]) <= Keys(s);
      SameWithout(s[1..], a, b);
    }
  }

  lemma ClaimsSnoc(key: Key, a: Broker, b: Broker)
    ensures ClaimsOf(key, [a]) == multiset{(key, a)}
    ensures ClaimsOf(key, [a] + [b]) == multiset{(key, a), (key, b)}
  {
    assert [a][1..] == [] && ([a] + [b])[1..] == [b] && [b][1..] == [];
    assert ClaimsOf(key, [b]) == multiset{(key, b)};
  }

  lemma FirstPushConserves(s: seq<Pending>, p: Pending)
    requires |p.brokers| == 1
    ensures Waiting(s) + multiset{(KeyOf(p.signal), p.brokers[0])} == Waiting(s + [p])
  {
    hide Waiting, ClaimsOf;
    WaitingOne(p);
    WaitingSplits(s, [p]);
    ClaimsSnoc(KeyOf(p.signal), p.brokers[0], p.brokers[0]);
    assert p.brokers == [p.brokers[0]];
  }

  lemma SecondPushConserves(s: seq<Pending>, key: Key, broker: Broker)
    requires Buffer(s) && Find(s, key).Some?
    ensures Waiting(s) + multiset{(key, broker)}
         == Waiting(Without(s, {key}))
            + Sent([Emission(Find(s, key).value.signal, Find(s, key).value.brokers + [broker])])
  {
    var p := Find(s, key).value;
    assert |p.brokers| == 1;
    hide Waiting, Sent, ClaimsOf, Without, Find, Buffer;
    var first := p.brokers[0];
    assert p.brokers == [first];
    ClaimsSnoc(key, first, broker);
    RemovalReleasesEntry(s, key);
    SentOne(Emission(p.signal, [first] + [broker]));
  }

  lemma PushConserves(s: seq<Pending>, window: real, signal: Signal, broker: Broker, now: real)
    requires Buffer(s)
    ensures var op := Push(signal, broker, now);
            Waiting(s) + Accepted(s, op) == Waiting(Step(s, window, op).0) + Sent(Step(s, window, op).1)
  {
    NothingSent();
    hide Waiting, Sent, Without, Find, Buffer;
    if Find(s, KeyOf(signal)).None? {
      FirstPushConserves(s, Pending(signal, [broker], now + window));
    } else {
      SecondPushConserves(s, KeyOf(signal), broker);
    }
  }

  lemma NothingSent()
    ensures Sent([]) == multiset{}
  {}

  lemma StepConserves(s: seq<Pending>, window: real, op: Op)
    requires Buffer(s)
    ensures Waiting(s) + Accepted(s, op) == Waiting(Step(s, window, op).0) + Sent(Step(s, window, op).1)
  {
    hide Waiting, Sent;
    match op
    case Push(signal, broker, now) => PushConserves(s, window, signal, broker, now);
    case Drain(now) => DrainSplits(s, now);
  }

  lemma WaitingOne(p: Pending)
    ensures Waiting([p]) == ClaimsOf(KeyOf(p.signal), p.brokers)
  {
    assert [p][1..] == [];
  }

  lemma SentOne(e: Emission)
    ensures Sent([e]) == ClaimsOf(KeyOf(e.signal), e.consensus)
  {
    assert [e][1..] == [];
  }

  lemma Regroup(a: multiset<Claim>, s0: multiset<Claim>, w0: multiset<Claim>, acc: multiset<Claim>,
                w1: multiset<Claim>, s1: multiset<Claim>)
    requires a == s0 + w0 && w0 + acc == w1 + s1
    ensures a + acc == (s0 + s1) + w1
  {
    calc {
      a + acc;
      s0 + (w0 + acc);
      s0 + (w1 + s1);
      (s0 + s1) + w1;
    }
  }

  /** Every accepted push is in exactly one emitted list or still waiting. */
  lemma {:induction false} Conservation(ops: seq<Op>, window: real)
    ensures AllAccepted(ops, window) == Sent(Emitted(ops, window)) + Waiting(State(ops, window))
  {
    NothingSent();
    hide Step, Buffer, Accepted, Sent;
    if ops != [] {
      var before, op := ops[..|ops| - 1], ops[|ops| - 1];
      Conservation(before, window);
      StateIsBuffer(before, window);
      StepConserves(State(before, window), window, op);
      SentSplits(Emitted(before, window), Step(State(before, window), window, op).1);
      assert Emitted(ops, window) == Emitted(before, window) + Step(State(before, window), window, op).1;
      assert State(ops, window) == Step(State(before, window), window, op).0;
      Regroup(AllAccepted(before, window), Sent(Emitted(before, window)), Waiting(State(before, window)),
              Accepted(State(before, window), op), Waiting(State(ops, window)),
              Sent(Step(State(before, window), window, op).1));
    }
  }

  // ----- Why each signal left -----

  /** Nothing that could have released an entry: no second broker, and no drain at or past its expiry. */
  predicate Quiet(op: Op, p: Pending)
    requires |p.brokers| == 1
  {
    match op
    case Push(signal, broker, _) => KeyOf(signal) == KeyOf(p.signal) ==> broker == p.brokers[0]
    case Drain(now) => now < p.expiresAt
  }

  predicate QuietFrom(ops: seq<Op>, i: nat, p: Pending)
    requires |p.brokers| == 1
  {
    forall k :: i < k < |ops| ==> Quiet(ops[k], p)
  }

  /** Operation `i` is the push that opened the entry: its key was not waiting before. */
  predicate Opened(ops: seq<Op>, i: nat, p: Pending, window: real)
    requires |p.brokers| == 1
  {
    && i < |ops| && ops[i] == Push(p.signal, p.brokers[0], p.expiresAt - window)
    && Find(State(ops[..i], window), KeyOf(p.signal)) == None
  }

  lemma NewEntry(s: seq<Pending>, window: real, op: Op, p: Pending)
    requires Buffer(s) && p in Step(s, window, op).0 && p !in s
    ensures |p.brokers| == 1 && op == Push(p.signal, p.brokers[0], p.expiresAt - window)
    ensures Find(s, KeyOf(p.signal)) == None
  {
    match op
    case Push(signal, broker, now) => WithoutMembers(s, {KeyOf(signal)});
    case Drain(now) => DrainKeepsTheRest(s, now);
  }

  lemma OneBroker(s: seq<Pending>, p: Pending)
    requires Buffer(s) && p in s
    ensures |p.brokers| == 1
  {}

  /** Every waiting entry was opened by a push after which nothing could release it. */
  lemma {:induction false} WaitingSinceItsPush(ops: seq<Op>, window: real, p: Pending)
    requires p in State(ops, window)
    ensures |p.brokers| == 1
    ensures exists i: nat :: Opened(ops, i, p, window) && QuietFrom(ops, i, p)
  {
    hide Step, Buffer, Find, Quiet;
    StateIsBuffer(ops, window);
    OneBroker(State(ops, window), p);
    var n := |ops| - 1;
    var before, op := ops[..n], ops[n];
    var s := State(before, window);
    StateIsBuffer(before, window);
    if p !in s {
      NewEntry(s, window, op, p);
      assert Opened(ops, n, p, window) && QuietFrom(ops, n, p);
    } else {
      StaysOnlyIfQuiet(s, window, op, p);
      WaitingSinceItsPush(before, window, p);
      var i: nat :| Opened(before, i, p, window) && QuietFrom(before, i, p);
      assert before[..i] == ops[..i];
      assert Opened(ops, i, p, window);
      forall k | i < k < |ops| ensures Quiet(ops[k], p) {
        assert k < n ==> ops[k] == before[k];
      }
    }
  }

  lemma StaysOnlyIfQuiet(s: seq<Pending>, window: real, op: Op, p: Pending)
    requires Buffer(s) && p in Step(s, window, op).0 && p in s
    ensures |p.brokers| == 1 && Quiet(op, p)
  {
    match op
    case Push(signal, broker, now) =>
      var q := Find(s, KeyOf(signal));
      if q.Some? {
        WithoutMembers(s, {KeyOf(signal)});
        if KeyOf(p.signal) == KeyOf(signal) && p in s { SameKeySameEntry(s, p, q.value); }
      }
    case Drain(now) => DrainKeepsTheRest(s, now);
  }

  lemma {:induction false} SameKeySameEntry(s: seq<Pending>, p: Pending, q: Pending)
    requires Distinct(s) && p in s && q in s && KeyOf(p.signal) == KeyOf(q.signal)
    ensures p == q
  {
    assert s == [s[0]] + s[1..];
    if p in s[1..] && q in s[1..] {
      SameKeySameEntry(s[1..], p, q);
    }
  }

  /**
   A push emits the pair of its own broker and a different one whose push opened the entry; a drain
   emits single brokers that waited at least the window. In between nothing released the entry.
   */
  ghost predicate Justified(ops: seq<Op>, window: real, op: Op, e: Emission) {
    exists i: nat, p: Pending :: |p.brokers| == 1 && Opened(ops, i, p, window) && QuietFrom(ops, i, p)
      && e.signal == p.signal
      && match op
         case Push(signal, broker, now) =>
           KeyOf(signal) == KeyOf(p.signal) && broker != p.brokers[0] && e.consensus == [p.brokers[0], broker]
         case Drain(now) => e.consensus == p.brokers && now - ops[i].now >= window
  }

  lemma EmissionsAreJustified(ops: seq<Op>, window: real, op: Op)
    ensures forall e <- Step(State(ops, window), window, op).1 :: Justified(ops, window, op, e)
    ensures op.Push? ==> |Step(State(ops, window), window, op).1| <= 1
    ensures op.Drain? ==> forall p <- Step(State(ops, window), window, op).0 :: p.expiresAt > op.now
  {
    var s := State(ops, window);
    StateIsBuffer(ops, window);
    if op.Drain? { DrainKeepsTheRest(s, op.now); }
    forall e | e in Step(s, window, op).1 ensures Justified(ops, window, op, e) {
      var p := EmittedFrom(s, window, op, e);
      hide Step;
      WaitingSinceItsPush(ops, window, p);
      var i: nat :| Opened(ops, i, p, window) && QuietFrom(ops, i, p);
    }
  }

  /** The entry an emission came from. */
  lemma EmittedFrom(s: seq<Pending>, window: real, op: Op, e: Emission) returns (p: Pending)
    requires Buffer(s) && e in Step(s, window, op).1
    ensures p in s && e.signal == p.signal && |p.brokers| == 1
    ensures match op
            case Push(signal, broker, now) =>
              KeyOf(signal) == KeyOf(p.signal) && broker != p.brokers[0] && e.consensus == [p.brokers[0], broker]
            case Drain(now) => e.consensus == p.brokers && p.expiresAt <= now
  {
    match op
    case Push(signal, broker, now) => p := Find(s, KeyOf(signal)).value;
    case Drain(now) =>
      var k :| 0 <= k < |Expired(s, now)| && Emissions(Expired(s, now))[k] == e;
      p := Expired(s, now)[k];
      assert p in Expired(s, now);
  }

  lemma OpensEntry(s: seq<Pending>, window: real, p: Pending)
    requires |p.brokers| == 1 && Find(s, KeyOf(p.signal)) == None
    ensures p in Step(s, window, Push(p.signal, p.brokers[0], p.expiresAt - window)).0
  {
    assert p == Pending(p.signal, [p.brokers[0]], p.expiresAt - window + window);
  }

  lemma StaysIfQuiet(s: seq<Pending>, window: real, op: Op, p: Pending)
    requires Buffer(s) && p in s && |p.brokers| == 1 && Quiet(op, p)
    ensures p in Step(s, window, op).0
  {
    match op
    case Push(signal, broker, now) =>
      var q := Find(s, KeyOf(signal));
      if q.Some? {
        WithoutMembers(s, {KeyOf(signal)});
        if KeyOf(p.signal) == KeyOf(signal) { SameKeySameEntry(s, p, q.value); }
      }
    case Drain(now) => DrainKeepsTheRest(s, now);
  }

  /** An entry no later operation could release is still waiting. */
  lemma {:induction false} WaitsWhileQuiet(ops: seq<Op>, window: real, p: Pending, i: nat)
    requires |p.brokers| == 1 && Opened(ops, i, p, window) && QuietFrom(ops, i, p)
    ensures p in State(ops, window)
  {
    hide Step, Buffer, Find;
    var n := |ops| - 1;
    var before := ops[..n];
    StateIsBuffer(before, window);
    if i == n {
      OpensEntry(State(before, window), window, p);
    } else {
      assert before[..i] == ops[..i];
      assert forall k :: i < k < n ==> before[k] == ops[k];
      WaitsWhileQuiet(before, window, p, i);
      StaysIfQuiet(State(before, window), window, ops[n], p);
    }
  }

  /** An entry is waiting if and only if some push opened it and nothing since could release it. */
  lemma WaitingIff(ops: seq<Op>, window: real, p: Pending)
    requires |p.brokers| == 1
    ensures p in State(ops, window) <==> exists i: nat :: Opened(ops, i, p, window) && QuietFrom(ops, i, p)
  {
    hide State, Opened, QuietFrom;
    if p in State(ops, window) {
      WaitingSinceItsPush(ops, window, p);
    }
    forall i: nat | Opened(ops, i, p, window) && QuietFrom(ops, i, p) ensures p in State(ops, window) {
      WaitsWhileQuiet(ops, window, p, i);
    }
  }

  lemma FindWaiting(s: seq<Pending>, p: Pending)
    requires Buffer(s) && p in s
    ensures Find(s, KeyOf(p.signal)) == Some(p)
  {
    var q := Find(s, KeyOf(p.signal));
    SameKeySameEntry(s, p, q.value);
  }

  /** After any run, another broker confirms a waiting entry at once, whatever the time: a push does not look at the expiry. */
  lemma LateConfirmation(ops: seq<Op>, window: real, p: Pending, signal: Signal, broker: Broker, now: real)
    requires p in State(ops, window) && KeyOf(signal) == KeyOf(p.signal) && broker !in p.brokers
    ensures Step(State(ops, window), window, Push(signal, broker, now)).1 == [Emission(p.signal, p.brokers + [broker])]
  {
    StateIsBuffer(ops, window);
    FindWaiting(State(ops, window), p);
  }

  /** Two signals for one setup: symbol, direction, and the opening of the setup candle or, without one, the creation time. */
  predicate SameSetup(a: Signal, b: Signal) {
    && a.symbol == b.symbol && a.direction == b.direction
    && (if a.setupCandleOpenAt != 0 then a.setupCandleOpenAt else a.createdAt)
       == (if b.setupCandleOpenAt != 0 then b.setupCandleOpenAt else b.createdAt)
  }

  /** The one entry that waits for the setup of `signal`, if there is one. */
  predicate WaitsFor(s: seq<Pending>, signal: Signal, p: Pending) {
    p in s && SameSetup(p.signal, signal)
  }

  /**
   Without an entry waiting for the setup a push opens one; an entry of another broker is emitted
   with both brokers and leaves, alone; an entry of the same broker changes nothing.
   */
  ghost predicate Confirms(s: seq<Pending>, window: real, signal: Signal, broker: Broker, after: seq<Pending>, sent: seq<Emission>, now: real) {
    && ((forall p <- s :: !SameSetup(p.signal, signal)) ==> after == s + [Pending(signal, [broker], now + window)] && sent == [])
    && (forall p :: WaitsFor(s, signal, p) ==>
          && |p.brokers| == 1
          && (if p.brokers == [broker] then after == s && sent == []
              else sent == [Emission(p.signal, [p.brokers[0], broker])] && forall q :: q in after <==> q in s && q != p))
  }

  /** What a push does after any run. */
  lemma PushConfirms(ops: seq<Op>, window: real, signal: Signal, broker: Broker, now: real)
    ensures var s := State(ops, window);
            var (after, sent) := Step(s, window, Push(signal, broker, now));
            Confirms(s, window, signal, broker, after, sent, now)
  {
    hide Step, Buffer, State;
    StateIsBuffer(ops, window);
    BufferConfirms(State(ops, window), window, signal, broker, now);
  }

  lemma BufferConfirms(s: seq<Pending>, window: real, signal: Signal, broker: Broker, now: real)
    requires Buffer(s)
    ensures var (after, sent) := Step(s, window, Push(signal, broker, now));
            Confirms(s, window, signal, broker, after, sent, now)
  {
    hide Buffer, Step, SameSetup, KeyOf;
    FoundIffWaiting(s, signal);
    var found := Find(s, KeyOf(signal));
    if found.Some? {
      assert WaitsFor(s, signal, found.value);
      OneBroker(s, found.value);
      ConfirmsFound(s, window, signal, broker, now, found.value);
    } else {
      OpensWhenFree(s, window, signal, broker, now);
    }
  }

  lemma FoundIffWaiting(s: seq<Pending>, signal: Signal)
    requires Buffer(s)
    ensures forall p :: WaitsFor(s, signal, p) <==> Find(s, KeyOf(signal)) == Some(p)
  {
    hide Buffer;
    forall p | WaitsFor(s, signal, p)
      ensures Find(s, KeyOf(signal)) == Some(p)
    {
      FindWaiting(s, p);
    }
  }

  lemma OpensWhenFree(s: seq<Pending>, window: real, signal: Signal, broker: Broker, now: real)
    requires Find(s, KeyOf(signal)).None?
    ensures Step(s, window, Push(signal, broker, now)) == (s + [Pending(signal, [broker], now + window)], [])
  {
    hide Find;
  }

  lemma ConfirmsFound(s: seq<Pending>, window: real, signal: Signal, broker: Broker, now: real, p: Pending)
    requires Buffer(s) && |p.brokers| == 1 && Find(s, KeyOf(signal)) == Some(p)
    ensures var (after, sent) := Step(s, window, Push(signal, broker, now));
            if p.brokers == [broker] then after == s && sent == []
            else sent == [Emission(p.signal, [p.brokers[0], broker])] && forall q :: q in after <==> q in s && q != p
  {
    hide Find;
    assert p.brokers == [p.brokers[0]] && p.brokers + [broker] == [p.brokers[0], broker];
    WithoutMembers(s, {KeyOf(signal)});
    forall q | q in s && KeyOf(q.signal) == KeyOf(signal)
      ensures q == p
    {
      SameKeySameEntry(s, p, q);
    }
  }

  /** No operation after `i` pushes the key. */
  predicate NotPushed(ops: seq<Op>, i: nat, key: Key) {
    forall k :: i < k < |ops| && ops[k].Push? ==> KeyOf(ops[k].signal) != key
  }

  predicate NotDrained(ops: seq<Op>, i: nat, p: Pending) {
    forall k :: i < k < |ops| && ops[k].Drain? ==> ops[k].now < p.expiresAt
  }

  /**
   The second broker on a key confirms the first one, however late, if and only if no drain at
   or past the expiry came between the two; otherwise it starts to wait itself.
   */
  lemma ConfirmsIffNotDrained(ops: seq<Op>, window: real, p: Pending, i: nat, signal: Signal, broker: Broker, now: real)
    requires |p.brokers| == 1 && Opened(ops, i, p, window) && NotPushed(ops, i, KeyOf(p.signal))
    requires KeyOf(signal) == KeyOf(p.signal) && broker != p.brokers[0]
    ensures Step(State(ops, window), window, Push(signal, broker, now)).1
         == if NotDrained(ops, i, p) then [Emission(p.signal, p.brokers + [broker])] else []
  {
    hide State, Buffer, Opened;
    StateIsBuffer(ops, window);
    if NotDrained(ops, i, p) {
      WaitsWhileQuiet(ops, window, p, i);
      LateConfirmation(ops, window, p, signal, broker, now);
    } else {
      var q := Find(State(ops, window), KeyOf(p.signal));
      if q.Some? {
        WaitingSinceItsPush(ops, window, q.value);
        var j: nat :| Opened(ops, j, q.value, window) && QuietFrom(ops, j, q.value);
        LastPushOpened(ops, window, p, i, q.value, j);
        assert false;
      }
    }
  }

  /** An entry of the same key that still waits can only be the one opened last, and nothing drained it. */
  lemma LastPushOpened(ops: seq<Op>, window: real, p: Pending, i: nat, q: Pending, j: nat)
    requires |p.brokers| == 1 == |q.brokers| && KeyOf(p.signal) == KeyOf(q.signal)
    requires Opened(ops, i, p, window) && NotPushed(ops, i, KeyOf(p.signal))
    requires Opened(ops, j, q, window) && QuietFrom(ops, j, q)
    ensures NotDrained(ops, i, p)
  {
    if j < i {
      var sofar := ops[..i];
      assert sofar[..j] == ops[..j];
      assert forall k :: j < k < i ==> sofar[k] == ops[k];
      WaitsWhileQuiet(sofar, window, q, j);
      StateIsBuffer(sofar, window);
      assert q in State(sofar, window);
    }
  }

  // ----- The engine -----

  class ConsensusEngine {
    const window: real
    var pending: seq<Pending>

    constructor (windowMs: int)
      ensures pending == [] && window == windowMs as real / 1000.0
    {
      window := windowMs as real / 1000.0;
      pending := [];
    }

    method Push(signal: Signal, broker: Broker, now: real) returns (out: Option<Emission>)
      requires Buffer(pending)
      modifies this
      ensures Buffer(pending)
      ensures (pending, if out.Some? then [out.value] else []) == Step(old(pending), window, Op.Push(signal, broker, now))
    {
      StepKeepsBuffer(pending, window, Op.Push(signal, broker, now));
      var key := KeyOf(signal);
      var existing := Find(pending, key);
      if existing.Some? {
        if broker in existing.value.brokers { return None; }
        var brokers := existing.value.brokers + [broker];
        pending := Without(pending, {key});
        return Some(Emission(existing.value.signal, brokers));
      }
      pending := pending + [Pending(signal, [broker], now + window)];
      out := None;
    }

    method DrainExpired(now: real) returns (result: seq<Emission>)
      requires Buffer(pending)
      modifies this
      ensures Buffer(pending)
      ensures (pending, result) == Step(old(pending), window, Drain(now))
    {
      StepKeepsBuffer(pending, window, Drain(now));
      var ready := Expired(pending, now);
      result := [];
      ghost var was := pending;
      NothingRemoved(was);
      hide Without, Expired, Buffer, Keys, KeyOf;
      var i := 0;
      while i < |ready|
        invariant 0 <= i <= |ready|
        invariant pending == Without(was, Keys(ready[..i]))
        invariant result == Emissions(ready[..i])
      {
        var p := ready[i];
        RemoveNext(was, ready, i);
        pending := Without(pending, {KeyOf(p.signal)});
        result := result + [Emission(p.signal, p.brokers)];
        i := i + 1;
      }
      assert ready[..i] == ready;
    }
  }

  lemma NothingRemoved(s: seq<Pending>)
    ensures Without(s, Keys([])) == s && Emissions([]) == []
  {
    WithoutNone(s, Keys([]));
  }

  lemma RemoveNext(s: seq<Pending>, ready: seq<Pending>, i: nat)
    requires i < |ready|
    ensures var p := ready[i];
      && Without(Without(s, Keys(ready[..i])), {KeyOf(p.signal)}) == Without(s, Keys(ready[..i + 1]))
      && Emissions(ready[..i]) + [Emission(p.signal, p.brokers)] == Emissions(ready[..i + 1])
  {
    hide Without, Keys;
    assert ready[..i + 1] == ready[..i] + [ready[i]];
    KeysSnoc(ready[..i], ready[i]);
    WithoutTwice(s, Keys(ready[..i]), {KeyOf(ready[i].signal)});
  }
}
