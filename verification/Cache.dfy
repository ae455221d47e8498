/**
 The read-through cache: `backend/app/core/cache.py` on the helpers of `redis.py`.

 Every key contains the version of its namespace. `get_json` and `set_json` read the version and
 then read or write the value; other calls may run in between, and any Redis command may fail,
 which reads as a missing value.
 */
module Cache {
  import opened Wrappers
  import opened Decimals

  // ---------------------------------------------------------------------------------------
  // Keys
  // ---------------------------------------------------------------------------------------

  type Parts = seq<Option<string>>

  /** `"" if part is None else str(part)`, each after a bar */
  function Barred(parts: Parts): string {
    if parts == [] then "" else "|" + (if parts[0].Some? then parts[0].value else "") + Barred(parts[1..])
  }

  /** The text that is hashed: `"|".join` of the version and the parts. */
  function Raw(version: nat, parts: Parts): string {
    Digits(version) + Barred(parts)
  }

  /** The hash is injective; prefix and environment are fixed. */
  datatype Key = Key(namespace: string, raw: string)

  function KeyOf(namespace: string, version: nat, parts: Parts): Key {
    Key(namespace, Raw(version, parts))
  }

  /** Joining may confuse parts with one another, but never versions. */
  lemma RawEqualIff(v: nat, p: Parts, w: nat, q: Parts)
    ensures Raw(v, p) == Raw(w, q) <==> v == w && Barred(p) == Barred(q)
  {
    if Raw(v, p) == Raw(w, q) {
      SplitAfterDigits(Digits(v), Barred(p), Digits(w), Barred(q));
      ValueOfDigits(v);
      ValueOfDigits(w);
    }
  }

  function PartText(part: Option<string>): string {
    if part.Some? then part.value else ""
  }

  predicate NoBar(parts: Parts) {
    forall i :: 0 <= i < |parts| ==> '|' !in PartText(parts[i])
  }

  predicate SameTexts(p: Parts, q: Parts) {
    |p| == |q| && forall i :: 0 <= i < |p| ==> PartText(p[i]) == PartText(q[i])
  }

  lemma SplitAtBar(a: string, s: string, b: string, t: string)
    requires '|' !in a && '|' !in b && (s == [] || s[0] == '|') && (t == [] || t[0] == '|') && a + s == b + t
    ensures a == b && s == t
  {
    var u := a + s;
    assert forall i :: 0 <= i < |a| ==> u[i] == a[i];
    assert forall i :: 0 <= i < |b| ==> u[i] == b[i];
    assert s != [] ==> u[|a|] == '|';
    assert t != [] ==> u[|b|] == '|';
    assert a == (a + s)[..|a|] && b == (b + t)[..|b|] && s == (a + s)[|a|..] && t == (b + t)[|b|..];
  }

  lemma SameTextsStep(p: Parts, q: Parts)
    requires p != [] && q != []
    ensures SameTexts(p, q) <==> PartText(p[0]) == PartText(q[0]) && SameTexts(p[1..], q[1..])
  {
    if PartText(p[0]) == PartText(q[0]) && SameTexts(p[1..], q[1..]) {
      forall i | 0 <= i < |p| ensures PartText(p[i]) == PartText(q[i]) {
        if i > 0 {
          assert PartText(p[1..][i - 1]) == PartText(q[1..][i - 1]);
        }
      }
    }
  }

  predicate AtBar(s: string) {
    s == "" || s[0] == '|'
  }

  lemma BarredAtBar(p: Parts)
    ensures AtBar(Barred(p))
  {
  }

  lemma SplitParts(a: string, s: string, b: string, t: string)
    requires '|' !in a && '|' !in b && AtBar(s) && AtBar(t)
    ensures "|" + a + s == "|" + b + t <==> a == b && s == t
  {
    if "|" + a + s == "|" + b + t {
      assert ("|" + a + s)[1..] == a + s && ("|" + b + t)[1..] == b + t;
      SplitAtBar(a, s, b, t);
    }
  }

  /** Parts without a bar are told apart, up to none being the same as empty. */
  lemma {:induction false} BarredEqualIff(p: Parts, q: Parts)
    requires NoBar(p) && NoBar(q)
    ensures Barred(p) == Barred(q) <==> SameTexts(p, q)
  {
    if p != [] && q != [] {
      BarredAtBar(p[1..]);
      BarredAtBar(q[1..]);
      SplitParts(PartText(p[0]), Barred(p[1..]), PartText(q[0]), Barred(q[1..]));
      SameTextsStep(p, q);
      BarredEqualIff(p[1..], q[1..]);
    }
  }

  /** Within one namespace, bar-free keys agree exactly for the same version and the same parts. */
  lemma KeyEqualIff(namespace: string, v: nat, p: Parts, other: string, w: nat, q: Parts)
    requires NoBar(p) && NoBar(q)
    ensures KeyOf(namespace, v, p) == KeyOf(other, w, q) <==> namespace == other && v == w && SameTexts(p, q)
  {
    RawEqualIff(v, p, w, q);
    BarredEqualIff(p, q);
  }

  lemma JoinIsNotInjective()
    ensures KeyOf("reports", 1, [Some("a|b")]) == KeyOf("reports", 1, [Some("a"), Some("b")])
  {
    assert Barred([Some("a|b")]) == "|a|b" by {
      assert [Some("a|b")][1..] == [];
    }
    assert Barred([Some("a"), Some("b")]) == "|a|b" by {
      assert [Some("a"), Some("b")][1..] == [Some("b")] && [Some("b")][1..] == [];
    }
  }

  // ---------------------------------------------------------------------------------------
  // States
  // ---------------------------------------------------------------------------------------

  /**
   What happened so far; the length of the history is the time. `bump` returns normally either
   way, whether its `INCR` was applied or lost.
   */
  datatype Happening = Bumped(namespace: string) | Lost(namespace: string) | Other

  /** A version read by a call, and when; `truthful` is false when the command failed. */
  datatype Reading = Reading(version: nat, at: nat, truthful: bool)

  datatype Purpose = Get | Set(value: string, computed: nat)

  /** A stored value with its history: the parts, and the version reading of its `set_json`. */
  datatype Entry = Entry(value: string, parts: Parts, reading: Reading, computed: nat, readable: bool)

  datatype Phase = Started | Read(reading: Reading) | Done(reading: Reading, found: Option<Entry>)

  datatype Call = Call(namespace: string, parts: Parts, purpose: Purpose, started: nat, phase: Phase)

  datatype State = State(counters: map<string, nat>, store: map<Key, Entry>, calls: map<string, Call>, history: seq<Happening>)

  datatype Step =
    | Start(c: string, namespace: string, parts: Parts, purpose: Purpose)
    | ReadVersion(c: string, ok: bool)
    | Fetch(c: string, ok: bool)
    | Store(c: string, ok: bool)
    | Incr(namespace: string, ok: bool)
    | Evict(key: Key)
    | Damage(key: Key)

  const Empty: State := State(map[], map[], map[], [])

  function Counter(s: State, namespace: string): nat {
    if namespace in s.counters then s.counters[namespace] else 0
  }

  function Tick(s: State, what: Happening): State {
    s.(history := s.history + [what])
  }

  function Move(s: State, c: string, phase: Phase): State
    requires c in s.calls
  {
    s.(calls := s.calls[c := s.calls[c].(phase := phase)])
  }

  function CallKey(call: Call, reading: Reading): Key {
    KeyOf(call.namespace, reading.version, call.parts)
  }

  function Apply(s: State, step: Step): State {
    match step
    case Start(c, namespace, parts, purpose) =>
      if c in s.calls || (purpose.Set? && purpose.computed > |s.history|) then s
      else s.(calls := s.calls[c := Call(namespace, parts, purpose, |s.history|, Started)])
    case ReadVersion(c, ok) =>
      if c in s.calls && s.calls[c].phase.Started? then
        Move(s, c, Read(Reading(if ok then Counter(s, s.calls[c].namespace) else 0, |s.history|, ok)))
      else s
    case Fetch(c, ok) =>
      if c in s.calls && s.calls[c].phase.Read? && s.calls[c].purpose.Get? then
        var reading := s.calls[c].phase.reading;
        var key := CallKey(s.calls[c], reading);
        if !ok || key !in s.store then Move(s, c, Done(reading, None))
        else if !s.store[key].readable then Move(s.(store := s.store - {key}), c, Done(reading, None))
        else Move(s, c, Done(reading, Some(s.store[key])))
      else s
    case Store(c, ok) =>
      if c in s.calls && s.calls[c].phase.Read? && s.calls[c].purpose.Set? then
        var call, reading := s.calls[c], s.calls[c].phase.reading;
        var entry := Entry(call.purpose.value, call.parts, reading, call.purpose.computed, true);
        Move(if ok then s.(store := s.store[CallKey(call, reading) := entry]) else s, c, Done(reading, None))
      else s
    case Incr(namespace, ok) => if !ok then s else s.(counters := s.counters[namespace := Counter(s, namespace) + 1])
    case Evict(key) => s.(store := s.store - {key})
    case Damage(key) => if key in s.store then s.(store := s.store[key := s.store[key].(readable := false)]) else s
  }

  function Happens(step: Step): Happening {
    if !step.Incr? then Other else if step.ok then Bumped(step.namespace) else Lost(step.namespace)
  }

  function Next(s: State, step: Step): State {
    Tick(Apply(s, step), Happens(step))
  }

  function Run(s: State, steps: seq<Step>): State
    decreases |steps|
  {
    if steps == [] then s else Run(Next(s, steps[0]), steps[1..])
  }

  // ---------------------------------------------------------------------------------------
  // Versions count bumps
  // ---------------------------------------------------------------------------------------

  function Bumps(history: seq<Happening>, namespace: string): nat {
    if history == [] then 0
    else
      var n := |history| - 1;
      Bumps(history[..n], namespace) + if history[n] == Bumped(namespace) then 1 else 0
  }

  lemma {:induction false} BumpsGrow(history: seq<Happening>, namespace: string, i: nat, j: nat)
    requires i <= j <= |history|
    ensures Bumps(history[..i], namespace) <= Bumps(history[..j], namespace)
    ensures (exists b :: i <= b < j && history[b] == Bumped(namespace)) ==>
              Bumps(history[..i], namespace) < Bumps(history[..j], namespace)
  {
    if i < j {
      BumpsGrow(history, namespace, i, j - 1);
      assert history[..j][..j - 1] == history[..j - 1];
    }
  }

  /** A truthful reading is the number of bumps before it; a failed one is zero. */
  ghost predicate Sound(reading: Reading, namespace: string, history: seq<Happening>) {
    && reading.at <= |history|
    && reading.version == if reading.truthful then Bumps(history[..reading.at], namespace) else 0
  }

  ghost predicate SoundCall(call: Call, history: seq<Happening>) {
    && (call.phase.Started? ==> call.started <= |history|)
    && (!call.phase.Started? ==> call.started <= call.phase.reading.at && Sound(call.phase.reading, call.namespace, history))
    && (call.phase.Done? && call.phase.found.Some? ==>
          var entry := call.phase.found.value;
          && Sound(entry.reading, call.namespace, history)
          && entry.reading.version == call.phase.reading.version
          && Barred(entry.parts) == Barred(call.parts))
  }

  ghost predicate SoundEntry(key: Key, entry: Entry, history: seq<Happening>) {
    Sound(entry.reading, key.namespace, history) && key.raw == Raw(entry.reading.version, entry.parts)
  }

  ghost predicate Inv(s: State) {
    && (forall ns :: Counter(s, ns) == Bumps(s.history, ns))
    && (forall c :: c in s.calls ==> SoundCall(s.calls[c], s.history))
    && (forall k :: k in s.store ==> SoundEntry(k, s.store[k], s.history))
  }

  lemma SoundLater(reading: Reading, namespace: string, history: seq<Happening>, what: Happening)
    requires Sound(reading, namespace, history)
    ensures Sound(reading, namespace, history + [what])
  {
    assert (history + [what])[..reading.at] == history[..reading.at];
  }

  lemma SoundCallLater(call: Call, history: seq<Happening>, what: Happening)
    requires SoundCall(call, history)
    ensures SoundCall(call, history + [what])
  {
    if !call.phase.Started? {
      SoundLater(call.phase.reading, call.namespace, history, what);
      if call.phase.Done? && call.phase.found.Some? {
        SoundLater(call.phase.found.value.reading, call.namespace, history, what);
      }
    }
  }

  lemma TickKeepsInv(s: State, t: State, what: Happening)
    requires forall c :: c in t.calls ==> SoundCall(t.calls[c], s.history)
    requires forall k :: k in t.store ==> SoundEntry(k, t.store[k], s.history)
    requires t.history == s.history
    requires forall ns :: Counter(t, ns) == Bumps(s.history, ns) + if what == Bumped(ns) then 1 else 0
    ensures Inv(Tick(t, what))
  {
    var u := Tick(t, what);
    assert u.history[..|s.history|] == s.history;
    forall c | c in u.calls
      ensures SoundCall(u.calls[c], u.history)
    {
      SoundCallLater(t.calls[c], s.history, what);
    }
    forall k | k in u.store
      ensures SoundEntry(k, u.store[k], u.history)
    {
      SoundLater(t.store[k].reading, k.namespace, s.history, what);
    }
  }

  lemma NextKeepsInv(s: State, step: Step)
    requires Inv(s)
    ensures Inv(Next(s, step))
  {
    CallsStaySound(s, step);
    EntriesStaySound(s, step);
    CountersStaySound(s, step);
    TickKeepsInv(s, Apply(s, step), Happens(step));
  }

  lemma CallsStaySound(s: State, step: Step)
    requires Inv(s)
    ensures forall c :: c in Apply(s, step).calls ==> SoundCall(Apply(s, step).calls[c], s.history)
  {
    match step
    case Start(c, _, _, _) =>
    case ReadVersion(c, _) =>
      assert s.history[..|s.history|] == s.history;
    case Fetch(c, ok) => FetchIsSound(s, c, ok);
    case Store(c, _) =>
      assert c in s.calls ==> SoundCall(s.calls[c], s.history);
    case Incr(_, _) =>
    case Evict(_) =>
    case Damage(_) =>
  }

  lemma EntriesStaySound(s: State, step: Step)
    requires Inv(s)
    ensures forall k :: k in Apply(s, step).store ==> SoundEntry(k, Apply(s, step).store[k], s.history)
  {
    match step
    case Store(c, ok) => StoreIsSound(s, c, ok);
    case Start(_, _, _, _) =>
    case ReadVersion(_, _) =>
    case Fetch(c, _) =>
      assert Apply(s, step).store.Keys <= s.store.Keys;
    case Incr(_, _) =>
    case Evict(_) =>
    case Damage(_) =>
  }

  lemma StoreIsSound(s: State, c: string, ok: bool)
    requires Inv(s)
    ensures forall k :: k in Apply(s, Store(c, ok)).store ==> SoundEntry(k, Apply(s, Store(c, ok)).store[k], s.history)
  {
    if c in s.calls {
      assert SoundCall(s.calls[c], s.history);
    }
  }

  lemma CountersStaySound(s: State, step: Step)
    requires forall ns :: Counter(s, ns) == Bumps(s.history, ns)
    ensures Apply(s, step).history == s.history
    ensures forall ns :: Counter(Apply(s, step), ns) == Bumps(s.history, ns) + if step == Incr(ns, true) then 1 else 0
  {
    forall ns
      ensures Counter(Apply(s, step), ns) == Counter(s, ns) + if step == Incr(ns, true) then 1 else 0
    {
    }
  }

  /** A value is found only under the version it was stored under. */
  lemma FetchIsSound(s: State, c: string, ok: bool)
    requires Inv(s)
    ensures forall d :: d in Apply(s, Fetch(c, ok)).calls ==> SoundCall(Apply(s, Fetch(c, ok)).calls[d], s.history)
  {
    if c in s.calls && s.calls[c].phase.Read? {
      var key := CallKey(s.calls[c], s.calls[c].phase.reading);
      assert SoundCall(s.calls[c], s.history);
      if key in s.store {
        assert SoundEntry(key, s.store[key], s.history);
        RawEqualIff(s.calls[c].phase.reading.version, s.calls[c].parts, s.store[key].reading.version, s.store[key].parts);
      }
    }
  }

  lemma {:induction false} RunKeepsInv(s: State, steps: seq<Step>)
    requires Inv(s)
    ensures Inv(Run(s, steps))
    decreases |steps|
  {
    if steps != [] {
      NextKeepsInv(s, steps[0]);
      RunKeepsInv(Next(s, steps[0]), steps[1..]);
    }
  }

  // ---------------------------------------------------------------------------------------
  // No value from before the bump
  // ---------------------------------------------------------------------------------------

  /** The value returned was stored by a set whose version reading came before the bump at `b`. */
  ghost predicate FromBefore(call: Call, b: nat) {
    call.phase.Done? && call.phase.found.Some? && call.phase.found.value.reading.at <= b
  }

  /** `bump` was called for the namespace at `b`; the get started afterwards. */
  ghost predicate StartedAfter(s: State, call: Call, b: nat) {
    b < call.started && b < |s.history| && s.history[b] in {Bumped(call.namespace), Lost(call.namespace)}
  }

  /** The `INCR` of that bump reached the server. */
  ghost predicate Applied(s: State, b: nat) {
    b < |s.history| && s.history[b].Bumped?
  }

  /**
   Main result. In every run of any number of calls, a get that starts after an applied bump of
   its namespace and whose own version read succeeds never returns such a value. Sets need no
   luck: a set whose read failed stores under version 0, which no reader sees after a bump.
   */
  lemma NeverFromBeforeABump(steps: seq<Step>, c: string, b: nat)
    requires var s := Run(Empty, steps);
      && c in s.calls && StartedAfter(s, s.calls[c], b) && Applied(s, b)
      && s.calls[c].phase.Done? && s.calls[c].phase.reading.truthful
    ensures !FromBefore(Run(Empty, steps).calls[c], b)
  {
    var s := Run(Empty, steps);
    RunKeepsInv(Empty, steps);
    var call := s.calls[c];
    assert SoundCall(call, s.history);
    if call.phase.found.Some? {
      var stored, read := call.phase.found.value.reading, call.phase.reading;
      if stored.at <= read.at {
        BumpsGrow(s.history, call.namespace, stored.at, read.at);
      }
      BumpsGrow(s.history, call.namespace, 0, read.at);
    }
  }

  /** No bump was applied between the two times. */
  ghost predicate NoBump(history: seq<Happening>, namespace: string, i: nat, j: nat) {
    forall b :: i <= b < j <= |history| ==> history[b] != Bumped(namespace)
  }

  lemma {:induction false} SameBumpsIff(history: seq<Happening>, namespace: string, i: nat, j: nat)
    requires i <= j <= |history|
    ensures Bumps(history[..i], namespace) == Bumps(history[..j], namespace) <==> NoBump(history, namespace, i, j)
  {
    if i < j {
      SameBumpsIff(history, namespace, i, j - 1);
      BumpsGrow(history, namespace, i, j - 1);
      assert history[..j][..j - 1] == history[..j - 1];
    }
  }

  /**
   Exactly which stored values are still served: a truthful, undisturbed get returns an entry of
   a truthful set if and only if no bump was applied since the set read its version. Bumps that
   were lost do not count.
   */
  lemma ServedIff(steps: seq<Step>, c: string, namespace: string, parts: Parts, entry: Entry)
    requires var s := Run(Empty, steps);
      && c !in s.calls && entry.readable && entry.reading.truthful
      && KeyOf(namespace, entry.reading.version, parts) in s.store
      && s.store[KeyOf(namespace, entry.reading.version, parts)] == entry
    ensures var s := Run(Empty, steps);
      var e := Run(s, GetSteps(c, namespace, parts, true, true));
      && entry.reading.at <= |s.history| && c in e.calls && e.calls[c].phase.Done?
      && (e.calls[c].phase.found == Some(entry) <==> NoBump(s.history, namespace, entry.reading.at, |s.history|))
  {
    var s := Run(Empty, steps);
    RunKeepsInv(Empty, steps);
    var key := KeyOf(namespace, entry.reading.version, parts);
    assert SoundEntry(key, entry, s.history);
    assert s.history[..|s.history|] == s.history;
    SameBumpsIff(s.history, namespace, entry.reading.at, |s.history|);
    GetAlone(s, c, namespace, parts, true, true);
    var now := KeyOf(namespace, Counter(s, namespace), parts);
    if now in s.store && s.store[now] == entry {
      assert SoundEntry(now, entry, s.history);
      RawEqualIff(Counter(s, namespace), parts, entry.reading.version, entry.parts);
    }
  }

  /** A call returns only values stored in its namespace under the same joined parts. */
  lemma FoundUnderSameParts(steps: seq<Step>, c: string)
    requires var s := Run(Empty, steps); c in s.calls && s.calls[c].phase.Done? && s.calls[c].phase.found.Some?
    ensures var call := Run(Empty, steps).calls[c]; Barred(call.phase.found.value.parts) == Barred(call.parts)
  {
    RunKeepsInv(Empty, steps);
    assert SoundCall(Run(Empty, steps).calls[c], Run(Empty, steps).history);
  }

  // ---------------------------------------------------------------------------------------
  // What is not promised
  // ---------------------------------------------------------------------------------------

  lemma OneStep(s: State, step: Step, rest: seq<Step>)
    ensures Run(s, [step] + rest) == Run(Next(s, step), rest)
  {
    assert ([step] + rest)[1..] == rest;
  }

  function GetSteps(c: string, namespace: string, parts: Parts, ok: bool, reachable: bool): seq<Step> {
    [Start(c, namespace, parts, Get)] + ([ReadVersion(c, ok)] + ([Fetch(c, reachable)] + []))
  }

  function SetSteps(c: string, namespace: string, parts: Parts, purpose: Purpose, ok: bool, reachable: bool): seq<Step> {
    [Start(c, namespace, parts, purpose)] + ([ReadVersion(c, ok)] + ([Store(c, reachable)] + []))
  }

  lemma {:induction false} RunTogether(s: State, a: seq<Step>, b: seq<Step>)
    ensures Run(s, a + b) == Run(Run(s, a), b)
    decreases |a|
  {
    if a == [] {
      assert a + b == b;
    } else {
      assert (a + b)[1..] == a[1..] + b;
      RunTogether(Next(s, a[0]), a[1..], b);
    }
  }

  /** Three steps of one call. */
  lemma ThreeSteps(s: State, x: Step, y: Step, z: Step)
    ensures Run(s, [x] + ([y] + ([z] + []))) == Next(Next(Next(s, x), y), z)
  {
    OneStep(s, x, [y] + ([z] + []));
    OneStep(Next(s, x), y, [z] + []);
    OneStep(Next(Next(s, x), y), z, []);
  }

  const ThreeOthers: seq<Happening> := [Other, Other, Other]

  function ReadingAt(s: State, namespace: string, ok: bool): Reading {
    Reading(if ok then Counter(s, namespace) else 0, |s.history| + 1, ok)
  }

  function Hit(s: State, key: Key, reachable: bool): Option<Entry> {
    if reachable && key in s.store && s.store[key].readable then Some(s.store[key]) else None
  }

  function StoreAfterGet(s: State, key: Key, reachable: bool): map<Key, Entry> {
    if reachable && key in s.store && !s.store[key].readable then s.store - {key} else s.store
  }

  lemma StartAndRead(s: State, c: string, namespace: string, parts: Parts, purpose: Purpose, ok: bool)
    requires c !in s.calls && (purpose.Set? ==> purpose.computed <= |s.history|)
    ensures Next(Next(s, Start(c, namespace, parts, purpose)), ReadVersion(c, ok)) ==
            State(s.counters, s.store, s.calls[c := Call(namespace, parts, purpose, |s.history|, Read(ReadingAt(s, namespace, ok)))],
                  s.history + [Other] + [Other])
  {
    var started := Call(namespace, parts, purpose, |s.history|, Started);
    var s1 := State(s.counters, s.store, s.calls[c := started], s.history + [Other]);
    assert Next(s, Start(c, namespace, parts, purpose)) == s1;
    CallTwice(s.calls, c, started, started.(phase := Read(ReadingAt(s, namespace, ok))));
  }

  lemma CallTwice(calls: map<string, Call>, c: string, first: Call, second: Call)
    ensures calls[c := first][c := second] == calls[c := second]
  {
  }

  /** A get on its own. */
  lemma GetAlone(s: State, c: string, namespace: string, parts: Parts, ok: bool, reachable: bool)
    requires c !in s.calls
    ensures var reading := ReadingAt(s, namespace, ok);
      var key := KeyOf(namespace, reading.version, parts);
      Run(s, GetSteps(c, namespace, parts, ok, reachable)) ==
      State(s.counters, StoreAfterGet(s, key, reachable),
            s.calls[c := Call(namespace, parts, Get, |s.history|, Done(reading, Hit(s, key, reachable)))], s.history + ThreeOthers)
  {
    var reading := ReadingAt(s, namespace, ok);
    var call := Call(namespace, parts, Get, |s.history|, Read(reading));
    var s2 := State(s.counters, s.store, s.calls[c := call], s.history + [Other] + [Other]);
    ThreeSteps(s, Start(c, namespace, parts, Get), ReadVersion(c, ok), Fetch(c, reachable));
    StartAndRead(s, c, namespace, parts, Get, ok);
    FetchAlone(s, s2, c, call, reading, reachable);
    CallTwice(s.calls, c, call, call.(phase := Done(reading, Hit(s, CallKey(call, reading), reachable))));
    assert s.history + [Other] + [Other] + [Other] == s.history + ThreeOthers;
  }

  lemma FetchAlone(s: State, s2: State, c: string, call: Call, reading: Reading, reachable: bool)
    requires call.purpose.Get? && c in s2.calls && s2.calls[c] == call && call.phase == Read(reading) && s2.store == s.store
    ensures var key := CallKey(call, reading);
      Next(s2, Fetch(c, reachable)) == State(s2.counters, StoreAfterGet(s, key, reachable),
            s2.calls[c := call.(phase := Done(reading, Hit(s, key, reachable)))], s2.history + [Other])
  {
  }

  /** A set on its own. */
  lemma SetAlone(s: State, c: string, namespace: string, parts: Parts, value: string, computed: nat, ok: bool, reachable: bool)
    requires c !in s.calls && computed <= |s.history|
    ensures var reading := ReadingAt(s, namespace, ok);
      var key := KeyOf(namespace, reading.version, parts);
      Run(s, SetSteps(c, namespace, parts, Set(value, computed), ok, reachable)) ==
      State(s.counters, if reachable then s.store[key := Entry(value, parts, reading, computed, true)] else s.store,
            s.calls[c := Call(namespace, parts, Set(value, computed), |s.history|, Done(reading, None))], s.history + ThreeOthers)
  {
    var reading := ReadingAt(s, namespace, ok);
    var purpose := Set(value, computed);
    var call := Call(namespace, parts, purpose, |s.history|, Read(reading));
    var s2 := State(s.counters, s.store, s.calls[c := call], s.history + [Other] + [Other]);
    ThreeSteps(s, Start(c, namespace, parts, purpose), ReadVersion(c, ok), Store(c, reachable));
    StartAndRead(s, c, namespace, parts, purpose, ok);
    StoreAlone(s2, c, call, reading, reachable);
    CallTwice(s.calls, c, call, call.(phase := Done(reading, None)));
    assert s.history + [Other] + [Other] + [Other] == s.history + ThreeOthers;
  }

  lemma StoreAlone(s2: State, c: string, call: Call, reading: Reading, reachable: bool)
    requires call.purpose.Set? && c in s2.calls && s2.calls[c] == call && call.phase == Read(reading)
    ensures var entry := Entry(call.purpose.value, call.parts, reading, call.purpose.computed, true);
      Next(s2, Store(c, reachable)) ==
      State(s2.counters, if reachable then s2.store[CallKey(call, reading) := entry] else s2.store,
            s2.calls[c := call.(phase := Done(reading, None))], s2.history + [Other])
  {
  }

  /** A get whose version read fails after a bump may return a value stored before it. */
  lemma FailedReadServesOldValues() returns (steps: seq<Step>, c: string, b: nat)
    ensures var s := Run(Empty, steps);
      && c in s.calls && StartedAfter(s, s.calls[c], b) && FromBefore(s.calls[c], b)
  {
    var set_ := SetSteps("set", "reports", [], Set("old", 0), true, true);
    var get_ := GetSteps("get", "reports", [], false, true);
    steps, c, b := set_ + ([Incr("reports", true)] + get_), "get", 3;
    RunTogether(Empty, set_, [Incr("reports", true)] + get_);
    SetAlone(Empty, "set", "reports", [], "old", 0, true, true);
    var s := Run(Empty, set_);
    OneStep(s, Incr("reports", true), get_);
    var s' := Next(s, Incr("reports", true));
    GetAlone(s', "get", "reports", [], false, true);
    assert KeyOf("reports", 0, []) in s'.store;
  }

  /** A get after a bump whose `INCR` was lost may return a value stored before it. */
  lemma LostBumpServesOldValues() returns (steps: seq<Step>, c: string, b: nat)
    ensures var s := Run(Empty, steps);
      && c in s.calls && StartedAfter(s, s.calls[c], b) && !Applied(s, b)
      && s.calls[c].phase.Done? && s.calls[c].phase.reading.truthful && FromBefore(s.calls[c], b)
  {
    var set_ := SetSteps("set", "reports", [], Set("old", 0), true, true);
    var get_ := GetSteps("get", "reports", [], true, true);
    steps, c, b := set_ + ([Incr("reports", false)] + get_), "get", 3;
    RunTogether(Empty, set_, [Incr("reports", false)] + get_);
    SetAlone(Empty, "set", "reports", [], "old", 0, true, true);
    var s := Run(Empty, set_);
    OneStep(s, Incr("reports", false), get_);
    var s' := Next(s, Incr("reports", false));
    GetAlone(s', "get", "reports", [], true, true);
    assert KeyOf("reports", 0, []) in s'.store;
  }

  /** A set that reads its version after the bump may store a value computed before it. */
  lemma OldComputationsCanBeStored() returns (steps: seq<Step>, c: string, b: nat)
    ensures var s := Run(Empty, steps);
      && c in s.calls && StartedAfter(s, s.calls[c], b)
      && s.calls[c].phase.Done? && s.calls[c].phase.reading.truthful
      && s.calls[c].phase.found.Some? && s.calls[c].phase.found.value.computed <= b
  {
    var set_ := SetSteps("set", "reports", [], Set("old", 0), true, true);
    var get_ := GetSteps("get", "reports", [], true, true);
    steps, c, b := [Incr("reports", true)] + (set_ + get_), "get", 0;
    OneStep(Empty, Incr("reports", true), set_ + get_);
    var s := Next(Empty, Incr("reports", true));
    RunTogether(s, set_, get_);
    SetAlone(s, "set", "reports", [], "old", 0, true, true);
    var s' := Run(s, set_);
    GetAlone(s', "get", "reports", [], true, true);
    assert KeyOf("reports", 1, []) in s'.store;
  }

  // ---------------------------------------------------------------------------------------
  // The calls, statement by statement
  // ---------------------------------------------------------------------------------------

  /** The server and the calls on it. `up` arguments say whether a command reaches the server. */
  class Redis {
    var counters: map<string, nat>
    var store: map<Key, Entry>
    ghost var calls: map<string, Call>
    var history: seq<Happening>

    ghost function Snapshot(): State
      reads this
    {
      State(counters, store, calls, history)
    }

    method SafeCounter(namespace: string, up: bool) returns (version: nat)
      ensures version == if up then Counter(Snapshot(), namespace) else 0
    {
      return if up && namespace in counters then counters[namespace] else 0;
    }

    /** `safe_incr`: an error is swallowed, and the counter stays. */
    method SafeIncr(namespace: string, up: bool) returns (count: Option<nat>)
      modifies this
      ensures Snapshot() == Next(old(Snapshot()), Incr(namespace, up))
      ensures count == if up then Some(Counter(Snapshot(), namespace)) else None
      ensures forall ns :: Counter(Snapshot(), ns) == old(Counter(Snapshot(), ns)) + if up && ns == namespace then 1 else 0
    {
      if !up {
        history := history + [Lost(namespace)];
        return None;
      }
      var version := SafeCounter(namespace, true);
      counters := counters[namespace := version + 1];
      history := history + [Bumped(namespace)];
      return Some(version + 1);
    }

    /** `bump`, one `INCR` for each namespace; it returns normally even if some are lost. */
    method Bump(namespaces: seq<string>, up: seq<bool>)
      requires |up| == |namespaces|
      modifies this
      ensures Snapshot() == Run(old(Snapshot()), IncrSteps(namespaces, up))
    {
      var i := 0;
      while i < |namespaces|
        invariant i <= |namespaces|
        invariant Run(Snapshot(), IncrSteps(namespaces[i..], up[i..])) == Run(old(Snapshot()), IncrSteps(namespaces, up))
      {
        assert namespaces[i..][1..] == namespaces[i + 1..] && up[i..][1..] == up[i + 1..];
        OneStep(Snapshot(), Incr(namespaces[i], up[i]), IncrSteps(namespaces[i + 1..], up[i + 1..]));
        var count := SafeIncr(namespaces[i], up[i]);
        i := i + 1;
      }
    }

    /** `get_json` without another call in between. */
    method GetJson(c: string, namespace: string, parts: Parts, up1: bool, up2: bool) returns (found: Option<string>)
      requires c !in calls
      modifies this
      ensures Snapshot() == Run(old(Snapshot()), GetSteps(c, namespace, parts, up1, up2))
      ensures c in calls && calls[c].phase.Done?
      ensures found == if calls[c].phase.found.Some? then Some(calls[c].phase.found.value.value) else None
    {
      GetAlone(Snapshot(), c, namespace, parts, up1, up2);
      var version := SafeCounter(namespace, up1);
      var key := KeyOf(namespace, version, parts);
      ghost var reading, hit := ReadingAt(Snapshot(), namespace, up1), Hit(Snapshot(), key, up2);
      found := None;
      if up2 && key in store {
        if store[key].readable {
          found := Some(store[key].value);
        } else {
          store := store - {key};
        }
      }
      calls := calls[c := Call(namespace, parts, Get, |history|, Done(reading, hit))];
      history := history + ThreeOthers;
    }

    /** `set_json` without another call in between. */
    method SetJson(c: string, namespace: string, parts: Parts, value: string, computed: nat, up1: bool, up2: bool)
      requires c !in calls && computed <= |history|
      modifies this
      ensures Snapshot() == Run(old(Snapshot()), SetSteps(c, namespace, parts, Set(value, computed), up1, up2))
    {
      SetAlone(Snapshot(), c, namespace, parts, value, computed, up1, up2);
      var version := SafeCounter(namespace, up1);
      ghost var reading := ReadingAt(Snapshot(), namespace, up1);
      if up2 {
        store := store[KeyOf(namespace, version, parts) := Entry(value, parts, Reading(version, |history| + 1, up1), computed, true)];
      }
      calls := calls[c := Call(namespace, parts, Set(value, computed), |history|, Done(reading, None))];
      history := history + ThreeOthers;
    }
  }

  ghost function IncrSteps(namespaces: seq<string>, up: seq<bool>): seq<Step>
    requires |up| == |namespaces|
  {
    if namespaces == [] then [] else [Incr(namespaces[0], up[0])] + IncrSteps(namespaces[1..], up[1..])
  }
}
