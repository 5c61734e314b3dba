/** The registry through which every participant finds its topic's shared memory. */
module Registry {
  import opened Words
  import opened Outcomes

  /** A C string: its bytes, without the terminating zero. */
  type Name = seq<byte>

  const MAX_TOPICS: nat := 20

  /** What a 64-byte name field keeps: 63 bytes and a zero. */
  const NAME_BYTES: nat := 63

  /** The part of a name that fits a registry entry. */
  function Stored(name: Name): Name {
    if |name| <= NAME_BYTES then name else name[..NAME_BYTES]
  }

  /** The file of a topic: its name with every '/' made '_'. The common prefix of all
      topic files is left out. */
  function FileOf(name: Name): (file: Name)
    ensures |file| == |name|
  {
    seq(|name|, i requires 0 <= i < |name| => if name[i] == 0x2F then 0x5F else name[i])
  }

  predicate SlashOrUnderscore(b: byte) {
    b == 0x2F || b == 0x5F
  }

  /** Two names share a file exactly if they differ only in slashes against underscores. */
  lemma SameFileIff(a: Name, b: Name)
    ensures FileOf(a) == FileOf(b) <==>
              && |a| == |b|
              && forall i :: 0 <= i < |a| ==> a[i] == b[i] || (SlashOrUnderscore(a[i]) && SlashOrUnderscore(b[i]))
  {
    if FileOf(a) == FileOf(b) {
      forall i | 0 <= i < |a|
        ensures a[i] == b[i] || (SlashOrUnderscore(a[i]) && SlashOrUnderscore(b[i]))
      {
        assert FileOf(a)[i] == FileOf(b)[i];
      }
    } else if |a| == |b| {
      var i :| 0 <= i < |a| && FileOf(a)[i] != FileOf(b)[i];
    }
  }

  /** The shared state: the registered names, the files of the system, each with the
      shared memory object behind it, the subscriber count in every object, and how many
      objects there have been. */
  datatype Shared = Shared(topics: seq<Name>, files: map<Name, nat>, subscribers: map<nat, nat>, objects: nat)

  /** A registered name is looked up by comparing it with the whole name asked for. */
  predicate IsRegistered(s: Shared, name: Name) {
    name in s.topics
  }

  function CountOf(s: Shared, id: nat): nat {
    if id in s.subscribers then s.subscribers[id] else 0
  }

  function Subscribe(s: Shared, id: nat): Shared {
    s.(subscribers := s.subscribers[id := CountOf(s, id) + 1])
  }

  /** A new object behind a file; one that was there before stays with whoever has it
      mapped, but can no longer be opened. */
  function CreateFile(s: Shared, file: Name): Shared {
    s.(files := s.files[file := s.objects], subscribers := s.subscribers[s.objects := 0], objects := s.objects + 1)
  }

  /** The part of `createOrGetTopic` under the registry's lock; a subscriber then counts
      itself under the topic's lock. */
  function CreateOrGet(s: Shared, name: Name, isPublisher: bool): (Shared, Option<nat>) {
    var file := FileOf(name);
    if IsRegistered(s, name) then
      if file !in s.files then (s, None)
      else (s, Some(s.files[file]))
    else if !isPublisher || |s.topics| >= MAX_TOPICS then (s, None)
    else (CreateFile(s, file).(topics := s.topics + [Stored(name)]), Some(s.objects))
  }

  function Unsubscribe(s: Shared, id: nat): Shared {
    if CountOf(s, id) > 0 then s.(subscribers := s.subscribers[id := CountOf(s, id) - 1]) else s
  }

  // ----- runs -----

  /** A subscriber has found its topic but not counted itself yet; a participant is at
      work; it is gone. */
  datatype Stage = Uncounted | Live | Gone

  /** A participant that found its topic: the name it asked for, the object it mapped. */
  datatype Participant = Participant(name: Name, id: nat, isPublisher: bool, stage: Stage)

  datatype Event = Attach(name: Name, isPublisher: bool) | Count(who: nat) | Detach(who: nat)

  datatype State = State(shared: Shared, participants: seq<Participant>)

  predicate Enabled(s: State, e: Event) {
    match e
    case Attach(_, _) => true
    case Count(k) => k < |s.participants| && s.participants[k].stage.Uncounted?
    case Detach(k) => k < |s.participants| && s.participants[k].stage.Live?
  }

  /** A publisher's end leaves the topic as it is; a subscriber's lowers the count. */
  function Apply(s: State, e: Event): State
    requires Enabled(s, e)
  {
    match e
    case Attach(name, isPublisher) =>
      var (shared, id) := CreateOrGet(s.shared, name, isPublisher);
      State(shared, if id.None? then s.participants
                    else s.participants + [Joined(name, id.value, isPublisher)])
    case Count(k) =>
      var p := s.participants[k];
      State(Subscribe(s.shared, p.id), s.participants[k := p.(stage := Live)])
    case Detach(k) =>
      var p := s.participants[k];
      State(if p.isPublisher then s.shared else Unsubscribe(s.shared, p.id),
            s.participants[k := p.(stage := Gone)])
  }

  function Joined(name: Name, id: nat, isPublisher: bool): Participant {
    Participant(name, id, isPublisher, if isPublisher then Live else Uncounted)
  }

  /** An empty registry; files of earlier times may be lying around. */
  predicate Start(s: State) {
    && s.shared.topics == [] && s.shared.subscribers == map[] && s.participants == []
    && forall f :: f in s.shared.files ==> s.shared.files[f] < s.shared.objects
  }

  ghost predicate Run(states: seq<State>, es: seq<Event>) {
    && |states| == |es| + 1
    && Start(states[0])
    && forall i :: 0 <= i < |es| ==> Enabled(states[i], es[i]) && states[i + 1] == Apply(states[i], es[i])
  }

  /** No name is too long for a registry entry, and no two share a file. */
  ghost predicate Compatible(names: set<Name>) {
    && (forall a :: a in names ==> |a| <= NAME_BYTES)
    && (forall a, b :: a in names && b in names && FileOf(a) == FileOf(b) ==> a == b)
  }

  predicate Named(es: seq<Event>, names: set<Name>) {
    forall i :: 0 <= i < |es| && es[i].Attach? ==> es[i].name in names
  }

  /** The object a registered name leads to. */
  predicate LeadsTo(s: Shared, name: Name, id: nat) {
    name in s.topics && FileOf(name) in s.files && s.files[FileOf(name)] == id
  }

  /** The live subscribers of an object. */
  function LiveOn(ps: seq<Participant>, id: nat): nat {
    if ps == [] then 0 else LiveOn(ps[..|ps| - 1], id) + IsLive(ps[|ps| - 1], id)
  }

  function IsLive(p: Participant, id: nat): nat {
    if p.stage.Live? && !p.isPublisher && p.id == id then 1 else 0
  }

  // ----- the invariant -----

  ghost predicate Entries(s: Shared, names: set<Name>) {
    && |s.topics| <= MAX_TOPICS
    && (forall i :: 0 <= i < |s.topics| ==> s.topics[i] in names)
    && (forall i, j :: 0 <= i < j < |s.topics| ==> s.topics[i] != s.topics[j])
  }

  /** Every entry has its file, and the file has an object of its own. */
  ghost predicate Files(s: Shared) {
    && (forall f :: f in s.files ==> s.files[f] < s.objects)
    && (forall a :: a in s.topics ==> FileOf(a) in s.files)
    && (forall a, f :: a in s.topics && f in s.files && f != FileOf(a) ==> s.files[f] != s.files[FileOf(a)])
  }

  ghost predicate Placed(s: Shared, ps: seq<Participant>) {
    forall k :: 0 <= k < |ps| ==> LeadsTo(s, ps[k].name, ps[k].id)
  }

  ghost predicate Counted(s: Shared, ps: seq<Participant>) {
    forall id: nat :: CountOf(s, id) == LiveOn(ps, id)
  }

  /** Only subscribers count themselves. */
  predicate Uncounting(ps: seq<Participant>) {
    forall k :: 0 <= k < |ps| && ps[k].stage.Uncounted? ==> !ps[k].isPublisher
  }

  /** Whoever registered a name got in. */
  ghost predicate Registered(s: Shared, ps: seq<Participant>) {
    forall a :: a in s.topics ==> HasPublisher(ps, a)
  }

  ghost predicate HasPublisher(ps: seq<Participant>, name: Name) {
    exists k :: 0 <= k < |ps| && ps[k].name == name && ps[k].isPublisher
  }

  ghost predicate Placing(s: State, names: set<Name>) {
    && Entries(s.shared, names) && Files(s.shared)
    && Placed(s.shared, s.participants) && Counted(s.shared, s.participants) && Uncounting(s.participants)
  }

  ghost predicate Inv(s: State, names: set<Name>) {
    Placing(s, names) && Registered(s.shared, s.participants)
  }

  lemma PublisherStays(ps: seq<Participant>, more: seq<Participant>, name: Name)
    requires HasPublisher(ps, name) && |ps| <= |more|
    requires forall k :: 0 <= k < |ps| ==> more[k].name == ps[k].name && more[k].isPublisher == ps[k].isPublisher
    ensures HasPublisher(more, name)
  {
    var k :| 0 <= k < |ps| && ps[k].name == name && ps[k].isPublisher;
    assert more[k].name == name;
  }

  lemma StepKeepsRegistered(s: State, e: Event)
    requires Registered(s.shared, s.participants) && Enabled(s, e) && (e.Attach? ==> |e.name| <= NAME_BYTES)
    ensures Registered(Apply(s, e).shared, Apply(s, e).participants)
  {
    var t := Apply(s, e);
    hide HasPublisher;
    forall a | a in t.shared.topics
      ensures HasPublisher(t.participants, a)
    {
      if a in s.shared.topics {
        PublisherStays(s.participants, t.participants, a);
      } else {
        PublisherAt(t.participants, |s.participants|, a);
      }
    }
  }

  lemma PublisherAt(ps: seq<Participant>, k: nat, name: Name)
    requires k < |ps| && ps[k].name == name && ps[k].isPublisher
    ensures HasPublisher(ps, name)
  {
  }

  lemma {:induction false} NobodyOn(ps: seq<Participant>, id: nat)
    requires forall k :: 0 <= k < |ps| ==> ps[k].id != id
    ensures LiveOn(ps, id) == 0
  {
    if ps != [] {
      NobodyOn(ps[..|ps| - 1], id);
    }
  }

  lemma LiveOnGrows(ps: seq<Participant>, p: Participant)
    ensures forall id: nat :: LiveOn(ps + [p], id) == LiveOn(ps, id) + IsLive(p, id)
  {
    assert (ps + [p])[..|ps|] == ps;
  }

  lemma {:induction false} LiveOnUpdated(ps: seq<Participant>, k: nat, p: Participant, id: nat)
    requires k < |ps|
    ensures LiveOn(ps[k := p], id) == LiveOn(ps, id) - IsLive(ps[k], id) + IsLive(p, id)
  {
    var n := |ps| - 1;
    if k == n {
      assert ps[k := p][..n] == ps[..n];
    } else {
      assert ps[k := p][..n] == ps[..n][k := p];
      LiveOnUpdated(ps[..n], k, p, id);
    }
  }

  /** Registering a name none of the others share a file with leaves theirs alone. */
  lemma RegisterKeepsFiles(s: Shared, name: Name, names: set<Name>)
    requires Entries(s, names) && Files(s) && Compatible(names) && name in names
    requires name !in s.topics && |s.topics| < MAX_TOPICS
    ensures var t := CreateOrGet(s, name, true).0;
            && Entries(t, names) && Files(t) && LeadsTo(t, name, s.objects)
            && forall a, id :: LeadsTo(s, a, id) ==> LeadsTo(t, a, id)
  {
    assert Stored(name) == name;
    hide FileOf, Stored;
  }

  lemma RegisterKeepsPlacing(s: State, name: Name, names: set<Name>)
    requires Placing(s, names) && Compatible(names) && name in names
    requires name !in s.shared.topics && |s.shared.topics| < MAX_TOPICS
    ensures Placing(Apply(s, Attach(name, true)), names)
  {
    var t := Apply(s, Attach(name, true));
    RegisterKeepsFiles(s.shared, name, names);
    assert t.participants == s.participants + [Joined(name, s.shared.objects, true)];
    RegisterKeepsCounted(s, name);
    hide FileOf, Entries, Files, Counted;
    forall k | 0 <= k < |s.participants|
      ensures LeadsTo(t.shared, s.participants[k].name, s.participants[k].id)
    {
      assert LeadsTo(s.shared, s.participants[k].name, s.participants[k].id);
    }
    hide LeadsTo;
  }

  /** Nobody is on the new object yet. */
  lemma RegisterKeepsCounted(s: State, name: Name)
    requires Files(s.shared) && Placed(s.shared, s.participants) && Counted(s.shared, s.participants)
    requires name !in s.shared.topics && |s.shared.topics| < MAX_TOPICS
    ensures var t := Apply(s, Attach(name, true)); Counted(t.shared, t.participants)
  {
    var t := Apply(s, Attach(name, true));
    var p := Joined(name, s.shared.objects, true);
    assert t.participants == s.participants + [p];
    hide FileOf;
    forall k | 0 <= k < |s.participants|
      ensures s.participants[k].id != s.shared.objects
    {
      assert LeadsTo(s.shared, s.participants[k].name, s.participants[k].id);
    }
    NobodyOn(s.participants, s.shared.objects);
    hide LeadsTo, Files;
    LiveOnGrows(s.participants, p);
    forall id: nat ensures CountOf(t.shared, id) == LiveOn(t.participants, id) {
      assert CountOf(s.shared, id) == LiveOn(s.participants, id);
    }
  }

  lemma JoinKeepsPlacing(s: State, name: Name, isPublisher: bool, names: set<Name>)
    requires Placing(s, names) && name in s.shared.topics
    ensures Placing(Apply(s, Attach(name, isPublisher)), names)
  {
    var t := Apply(s, Attach(name, isPublisher));
    var p := Joined(name, s.shared.files[FileOf(name)], isPublisher);
    assert t.participants == s.participants + [p];
    assert LeadsTo(t.shared, p.name, p.id);
    forall k | 0 <= k < |s.participants|
      ensures LeadsTo(t.shared, s.participants[k].name, s.participants[k].id)
    {
      assert LeadsTo(s.shared, s.participants[k].name, s.participants[k].id);
    }
    LiveOnGrows(s.participants, p);
    forall id: nat ensures CountOf(t.shared, id) == LiveOn(t.participants, id) {
      assert CountOf(s.shared, id) == LiveOn(s.participants, id);
    }
  }

  /** The counts are no part of where everybody is. */
  lemma SameTables(s: Shared, t: Shared, ps: seq<Participant>, qs: seq<Participant>, names: set<Name>)
    requires Entries(s, names) && Files(s) && Placed(s, ps)
    requires t.topics == s.topics && t.files == s.files && t.objects == s.objects && |qs| == |ps|
    requires forall k :: 0 <= k < |ps| ==> qs[k].name == ps[k].name && qs[k].id == ps[k].id
    ensures Entries(t, names) && Files(t) && Placed(t, qs)
  {
    forall k | 0 <= k < |qs|
      ensures LeadsTo(t, qs[k].name, qs[k].id)
    {
      assert LeadsTo(s, ps[k].name, ps[k].id);
    }
  }

  lemma LeaveKeepsPlacing(s: State, k: nat, names: set<Name>)
    requires Placing(s, names) && Enabled(s, Detach(k))
    ensures Placing(Apply(s, Detach(k)), names)
  {
    var t, p := Apply(s, Detach(k)), s.participants[k];
    hide Entries, Files, Placed;
    SameTables(s.shared, t.shared, s.participants, t.participants, names);
    hide CountOf, Unsubscribe, LiveOn;
    forall id: nat ensures CountOf(t.shared, id) == LiveOn(t.participants, id) {
      assert CountOf(s.shared, id) == LiveOn(s.participants, id);
      UnsubscribeCounts(s.shared, p.id, id);
      LiveOnUpdated(s.participants, k, p.(stage := Gone), id);
    }
  }

  lemma UnsubscribeCounts(s: Shared, id: nat, other: nat)
    ensures CountOf(Unsubscribe(s, id), other) ==
              CountOf(s, other) - if other == id && CountOf(s, id) > 0 then 1 else 0
  {
  }

  lemma CountKeepsPlacing(s: State, k: nat, names: set<Name>)
    requires Placing(s, names) && Enabled(s, Count(k))
    ensures Placing(Apply(s, Count(k)), names)
  {
    var t, p := Apply(s, Count(k)), s.participants[k];
    hide Entries, Files, Placed;
    SameTables(s.shared, t.shared, s.participants, t.participants, names);
    forall id: nat ensures CountOf(t.shared, id) == LiveOn(t.participants, id) {
      assert CountOf(s.shared, id) == LiveOn(s.participants, id);
      LiveOnUpdated(s.participants, k, p.(stage := Live), id);
    }
  }

  lemma StepKeepsInv(s: State, e: Event, names: set<Name>)
    requires Inv(s, names) && Compatible(names) && Enabled(s, e) && (e.Attach? ==> e.name in names)
    ensures Inv(Apply(s, e), names)
  {
    StepKeepsRegistered(s, e);
    hide Registered;
    match e
    case Attach(name, isPublisher) =>
      if name in s.shared.topics {
        JoinKeepsPlacing(s, name, isPublisher, names);
      } else if isPublisher && |s.shared.topics| < MAX_TOPICS {
        RegisterKeepsPlacing(s, name, names);
      }
    case Count(k) => CountKeepsPlacing(s, k, names);
    case Detach(k) => LeaveKeepsPlacing(s, k, names);
  }

  lemma {:induction false} RunKeepsInv(states: seq<State>, es: seq<Event>, names: set<Name>, i: nat)
    requires Run(states, es) && Named(es, names) && Compatible(names) && i < |states|
    ensures Inv(states[i], names)
  {
    if i == 0 {
      assert Counted(states[0].shared, []);
    } else {
      RunKeepsInv(states, es, names, i - 1);
      StepKeepsInv(states[i - 1], es[i - 1], names);
    }
  }

  // ----- what the registry promises -----

  /** Participants on one name share one object. */
  ghost predicate OneObjectPerName(s: State) {
    forall j, k :: 0 <= j < k < |s.participants| && s.participants[j].name == s.participants[k].name ==>
      s.participants[j].id == s.participants[k].id
  }

  /** With compatible names, participants share an object exactly if they asked for the
      same name, entries are unique and at most `MAX_TOPICS`, and every object's count
      is the number of its live subscribers. */
  lemma RegistryIsAMap(states: seq<State>, es: seq<Event>, names: set<Name>, i: nat)
    requires Run(states, es) && Named(es, names) && Compatible(names) && i < |states|
    ensures var s := states[i];
            && (forall j, k :: 0 <= j < |s.participants| && 0 <= k < |s.participants| ==>
                  (s.participants[j].id == s.participants[k].id <==> s.participants[j].name == s.participants[k].name))
            && (forall a, b :: 0 <= a < b < |s.shared.topics| ==> s.shared.topics[a] != s.shared.topics[b])
            && |s.shared.topics| <= MAX_TOPICS
            && (forall id: nat :: CountOf(s.shared, id) == LiveOn(s.participants, id))
  {
    RunKeepsInv(states, es, names, i);
    var s := states[i];
    forall j, k | 0 <= j < |s.participants| && 0 <= k < |s.participants|
      ensures s.participants[j].id == s.participants[k].id <==> s.participants[j].name == s.participants[k].name
    {
      var p, q := s.participants[j], s.participants[k];
      assert LeadsTo(s.shared, p.name, p.id) && LeadsTo(s.shared, q.name, q.id);
    }
  }

  /** Registered are exactly the names under which a publisher got in. */
  lemma RegisteredByPublishers(states: seq<State>, es: seq<Event>, names: set<Name>, i: nat, name: Name)
    requires Run(states, es) && Named(es, names) && Compatible(names) && i < |states|
    ensures name in states[i].shared.topics <==>
              exists k :: 0 <= k < |states[i].participants|
                && states[i].participants[k].name == name && states[i].participants[k].isPublisher
  {
    RunKeepsInv(states, es, names, i);
    var s := states[i];
    if k :| 0 <= k < |s.participants| && s.participants[k].name == name && s.participants[k].isPublisher {
      assert LeadsTo(s.shared, s.participants[k].name, s.participants[k].id);
    }
    assert name in s.shared.topics ==> HasPublisher(s.participants, name);
  }

  /** Who gets in: a participant of a registered name, publisher or subscriber, and a
      publisher of a new one while there is room. It gets the object everybody of that name
      has, is counted by nobody yet, and registers its name; any other attempt changes
      nothing. */
  lemma AttachFinds(states: seq<State>, es: seq<Event>, names: set<Name>, i: nat)
    requires Run(states, es) && Named(es, names) && Compatible(names) && i < |es| && es[i].Attach?
    ensures var s, s', e := states[i], states[i + 1], es[i];
            var n := |s.participants|;
            if e.name in s.shared.topics || (e.isPublisher && |s.shared.topics| < MAX_TOPICS) then
              && |s'.participants| == n + 1 && s'.participants[..n] == s.participants
              && var p := s'.participants[n];
              && p.name == e.name && p.isPublisher == e.isPublisher && (p.stage.Uncounted? <==> !e.isPublisher)
              && (forall k :: 0 <= k < n && s.participants[k].name == e.name ==> s.participants[k].id == p.id)
              && s'.shared.topics == s.shared.topics + (if e.name in s.shared.topics then [] else [e.name])
            else s' == s
  {
    RunKeepsInv(states, es, names, i);
    RegistryIsAMap(states, es, names, i + 1);
    var s, s', e := states[i], states[i + 1], es[i];
    assert s' == Apply(s, e);
    if e.name in s.shared.topics || (e.isPublisher && |s.shared.topics| < MAX_TOPICS) {
      var n := |s.participants|;
      assert s'.participants[..n] == s.participants;
      assert forall k :: 0 <= k < n ==> s'.participants[k] == s.participants[k];
    }
  }

  /** A subscriber that counts itself raises the count of its object by one; one that leaves
      lowers it by one, and a publisher leaves all counts as they are. */
  lemma CountsMove(states: seq<State>, es: seq<Event>, names: set<Name>, i: nat, id: nat)
    requires Run(states, es) && Named(es, names) && Compatible(names) && i < |es| && !es[i].Attach?
    ensures var s, s', p := states[i], states[i + 1], states[i].participants[es[i].who];
            CountOf(s'.shared, id) == CountOf(s.shared, id) +
              (if p.isPublisher || p.id != id then 0 else if es[i].Count? then 1 else -1)
  {
    var s, s', k := states[i], states[i + 1], es[i].who;
    assert s' == Apply(s, es[i]);
    RegistryIsAMap(states, es, names, i);
    RegistryIsAMap(states, es, names, i + 1);
    RunKeepsInv(states, es, names, i);
    LiveOnUpdated(s.participants, k, s'.participants[k], id);
  }

  /** What a publisher has just opened or created, a subscriber of the name finds, whatever
      the state before, if the name fits its entry. */
  lemma SubscriberFinds(s: Shared, name: Name)
    requires |name| <= NAME_BYTES && CreateOrGet(s, name, true).1.Some?
    ensures var (created, id) := CreateOrGet(s, name, true);
            && CreateOrGet(created, name, false) == (created, id)
            && CountOf(Subscribe(created, id.value), id.value) == CountOf(created, id.value) + 1
  {
  }

  function Fresh(): State {
    State(Shared([], map[], map[], 0), [])
  }

  /** A name that does not fit its entry is never found again: every publisher of it
      gets an object of its own. */
  lemma LongNameIsLost(name: Name)
    requires |name| > NAME_BYTES
    ensures exists states, es ::
              && Run(states, es) && Named(es, {name})
              && !OneObjectPerName(states[|es|])
  {
    var e := Attach(name, true);
    var s1 := Apply(Fresh(), e);
    var s2 := Apply(s1, e);
    assert s1.participants == [Joined(name, 0, true)];
    assert s2.participants == s1.participants + [Joined(name, 1, true)];
    assert s2.participants[0].id != s2.participants[1].id;
    assert Run([Fresh(), s1, s2], [e, e]);
  }

  /** Of two names that share a file the later registration takes the file over, and
      the next participant of the earlier name gets the other topic's object. */
  lemma SharedFileSplits(a: Name, b: Name)
    requires a != b && FileOf(a) == FileOf(b) && |a| <= NAME_BYTES
    ensures exists states, es ::
              && Run(states, es) && Named(es, {a, b})
              && !OneObjectPerName(states[|es|])
  {
    var s1 := Apply(Fresh(), Attach(a, true));
    var s2 := Apply(s1, Attach(b, true));
    var s3 := Apply(s2, Attach(a, true));
    assert s1.participants == [Joined(a, 0, true)];
    assert s2.participants == s1.participants + [Joined(b, 1, true)];
    assert s3.participants == s2.participants + [Joined(a, 1, true)];
    assert s3.participants[0].id != s3.participants[2].id;
    assert Run([Fresh(), s1, s2, s3], [Attach(a, true), Attach(b, true), Attach(a, true)]);
  }

  /** Over the names in use, the promise of one object per name holds in every run
      exactly if the names are compatible. */
  lemma CompatibleNamesAreEnough(names: set<Name>)
    ensures Compatible(names) <==>
              forall states, es :: Run(states, es) && Named(es, names) ==> OneObjectPerName(states[|es|])
  {
    if Compatible(names) {
      forall states, es | Run(states, es) && Named(es, names) ensures OneObjectPerName(states[|es|]) {
        RegistryIsAMap(states, es, names, |es|);
      }
    } else if a :| a in names && |a| > NAME_BYTES {
      LongNameIsLost(a);
      var states, es :| Run(states, es) && Named(es, {a}) && !OneObjectPerName(states[|es|]);
      assert Named(es, names);
    } else {
      var a, b :| a in names && b in names && FileOf(a) == FileOf(b) && a != b;
      SharedFileSplits(a, b);
      var states, es :| Run(states, es) && Named(es, {a, b}) && !OneObjectPerName(states[|es|]);
      assert Named(es, names);
    }
  }
}
