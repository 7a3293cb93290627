/** The answer cache under every interleaving of writers, which change the trie and then
    announce it by raising the generation, and readers, which load the generation first. */
module TopicCache {
  import opened Wrappers
  import opened SubscriptionSpec
  import opened SubscriptionStores

  datatype Entry = Entry(version: nat, generation: nat)

  /** A writer after its change: with the change to announce, then with the size of the cache to
      look at, then with the cache to clear. */
  datatype Writing = Changed(version: nat) | Announced | Clearing

  /** A reader between loading the generation and answering.  `shared` says that a group was
      found; a reader that is `Storing` has found room in the cache. */
  datatype Reading =
    | Loaded(topic: string, generation: nat)
    | Missed(topic: string, generation: nat)
    | Computed(topic: string, generation: nat, version: nat, shared: bool)
    | Storing(topic: string, generation: nat, version: nat)

  /** `since` is the generation at the call's start, `version` the trie the answer is from. */
  datatype Answer = Answer(reader: nat, topic: string, since: nat, version: nat)

  /** The trie's version is the number of changes made; `announced` lists the changes announced so
      far, so that its length is the generation. */
  datatype World = World(
    changes: seq<Change>, announced: seq<nat>, writers: map<nat, Writing>, cache: map<string, Entry>,
    readers: map<nat, Reading>, answers: seq<Answer>)

  datatype Step =
    | Write(writer: nat, change: Change)   // under the write lock
    | Announce(writer: nat)
    | Measure(writer: nat)                 // is the cache far too large?
    | Clear(writer: nat)
    | Load(reader: nat, topic: string)
    | Look(reader: nat)                    // in the cache
    | Compute(reader: nat)                 // under the read lock, after a miss
    | Decide(reader: nat)                  // no group, and room in the cache?
    | Store(reader: nat)

  function Initial(): World {
    World([], [], map[], map[], map[], [])
  }

  /** Only an unsubscription can find nothing to change. */
  ghost predicate TakesEffect(changes: seq<Change>, change: Change) {
    change.Unsubscribed? ==> KeyFor(change.filter, change.client) in TableAfter(changes)
  }

  /** A subscription in a group stands at a filter that matches the topic. */
  ghost predicate Grouped(changes: seq<Change>, topic: string) {
    exists s :: Serves(changes, topic, s) && s.shareGroup.Some?
  }

  ghost function Next(w: World, step: Step): World {
    if step.Write? || step.Announce? || step.Measure? || step.Clear? then NextWriter(w, step.writer, step)
    else if step.Load? then
      if step.reader in w.readers then w
      else w.(readers := w.readers[step.reader := Loaded(step.topic, |w.announced|)])
    else if step.reader in w.readers then NextReader(w, step.reader, w.readers[step.reader], step)
    else w
  }

  ghost function NextWriter(w: World, t: nat, step: Step): World {
    match step
    case Write(_, change) =>
      if t in w.writers || !TakesEffect(w.changes, change) then w
      else w.(changes := w.changes + [change], writers := w.writers[t := Changed(|w.changes|)])
    case Announce(_) =>
      if t in w.writers && w.writers[t].Changed? then
        w.(announced := w.announced + [w.writers[t].version], writers := w.writers[t := Announced])
      else w
    case Measure(_) =>
      if t in w.writers && w.writers[t].Announced? then
        w.(writers := if |w.cache| > TOPIC_CACHE_MAX_SIZE * 2 then w.writers[t := Clearing] else w.writers - {t})
      else w
    case Clear(_) =>
      if t in w.writers && w.writers[t].Clearing? then w.(writers := w.writers - {t}, cache := map[]) else w
    case _ => w
  }

  ghost function NextReader(w: World, t: nat, r: Reading, step: Step): World {
    match step
    case Look(_) =>
      if !r.Loaded? then w
      else if Cached(w, r) then Answered(w, t, r, w.cache[r.topic].version)
      else w.(readers := w.readers[t := Missed(r.topic, r.generation)])
    case Compute(_) =>
      if !r.Missed? then w
      else
        var computed := Computed(r.topic, r.generation, |w.changes|, Grouped(w.changes, r.topic));
        w.(readers := w.readers[t := computed])
    case Decide(_) =>
      if !r.Computed? then w
      else if !r.shared && |w.cache| < TOPIC_CACHE_MAX_SIZE then
        w.(readers := w.readers[t := Storing(r.topic, r.generation, r.version)])
      else Answered(w, t, r, r.version)
    case Store(_) =>
      if !r.Storing? then w
      else Answered(w, t, r, r.version).(cache := w.cache[r.topic := Entry(r.version, r.generation)])
    case _ => w
  }

  function Answered(w: World, t: nat, r: Reading, version: nat): World {
    w.(readers := w.readers - {t}, answers := w.answers + [Answer(t, r.topic, r.generation, version)])
  }

  predicate Cached(w: World, r: Reading) {
    r.topic in w.cache && w.cache[r.topic].generation == r.generation
  }

  ghost function Run(steps: seq<Step>): World {
    if steps == [] then Initial() else Next(Run(steps[..|steps| - 1]), steps[|steps| - 1])
  }

  /** A version that has every change announced up to a generation. */
  ghost predicate UpToDate(announced: seq<nat>, generation: nat, version: nat) {
    generation <= |announced| && forall j :: 0 <= j < generation ==> announced[j] < version
  }

  /** A version that was, with every change announced up to the generation. */
  ghost predicate Right(w: World, generation: nat, version: nat) {
    version <= |w.changes| && UpToDate(w.announced, generation, version)
  }

  /** The same for an answer that may be given again: it must have no group in it. */
  ghost predicate Repeatable(w: World, topic: string, generation: nat, version: nat) {
    Right(w, generation, version) && !Grouped(w.changes[..version], topic)
  }

  ghost predicate SoundReading(w: World, r: Reading) {
    match r
    case Computed(topic, generation, version, shared) =>
      Right(w, generation, version) && shared == Grouped(w.changes[..version], topic)
    case Storing(topic, generation, version) => Repeatable(w, topic, generation, version)
    case _ => r.generation <= |w.announced|
  }

  ghost predicate Sound(w: World) {
    && Right(w, |w.announced|, |w.changes|)
    && PendingMade(w)
    && (forall topic :: topic in w.cache ==>
         Repeatable(w, topic, w.cache[topic].generation, w.cache[topic].version))
    && (forall t :: t in w.readers ==> SoundReading(w, w.readers[t]))
    && (forall i :: 0 <= i < |w.answers| ==> Right(w, w.answers[i].since, w.answers[i].version))
  }

  /** What was right stays right while changes are made and announced. */
  ghost predicate Extends(w: World, w': World) {
    w.changes <= w'.changes && w.announced <= w'.announced
  }

  lemma StaysRight(w: World, w': World, generation: nat, version: nat)
    requires Extends(w, w') && Right(w, generation, version)
    ensures Right(w', generation, version) && w'.changes[..version] == w.changes[..version]
  {
  }

  // ----- What one step does to each part -----

  lemma {:induction false} LogStep(w: World, step: Step)
    ensures Extends(w, Next(w, step))
    ensures |Next(w, step).changes| <= |w.changes| + 1
  {
    hide Grouped, TakesEffect;
  }

  /** A reader moves on to its next phase, or stays as it is. */
  ghost predicate Moves(w: World, t: nat, after: Reading) {
    || (after.Loaded? && after.generation == |w.announced|)
    || (t in w.readers && var r := w.readers[t];
        || after == r
        || after == Missed(r.topic, r.generation)
        || (r.Missed? && after == Computed(r.topic, r.generation, |w.changes|, Grouped(w.changes, r.topic)))
        || (r.Computed? && !r.shared && |w.cache| < TOPIC_CACHE_MAX_SIZE
            && after == Storing(r.topic, r.generation, r.version)))
  }

  lemma {:induction false} ReaderStep(w: World, step: Step, t: nat)
    requires t in Next(w, step).readers
    ensures Moves(w, t, Next(w, step).readers[t])
    ensures t !in w.readers ==> Next(w, step).readers[t].Loaded?
  {
    hide Grouped, TakesEffect;
  }

  lemma {:induction false} CacheStep(w: World, step: Step, topic: string)
    requires topic in Next(w, step).cache
    ensures var e := Next(w, step).cache[topic];
      || (topic in w.cache && w.cache[topic] == e)
      || (step.Store? && step.reader in w.readers && w.readers[step.reader] == Storing(topic, e.generation, e.version))
  {
    hide Grouped, TakesEffect;
  }

  /** A reader that is gone has answered, from the cache or what it computed. */
  ghost predicate Answers(w: World, t: nat, after: World) {
    && t in w.readers && !w.readers[t].Missed?
    && (w.readers[t].Loaded? ==> Cached(w, w.readers[t]))
    && var r := w.readers[t];
       after.answers == w.answers + [Answer(t, r.topic, r.generation,
                                            if r.Loaded? then w.cache[r.topic].version else r.version)]
  }

  lemma {:induction false} AnswerStep(w: World, step: Step)
    ensures var w' := Next(w, step); w'.answers == w.answers || exists t :: Answers(w, t, w')
  {
    hide Grouped, TakesEffect;
    if Next(w, step).answers != w.answers {
      assert Answers(w, step.reader, Next(w, step));
    }
  }

  lemma {:induction false} GoneStep(w: World, step: Step, t: nat)
    requires t in w.readers && t !in Next(w, step).readers
    ensures Answers(w, t, Next(w, step))
  {
    hide Grouped, TakesEffect;
  }

  /** A reader under way keeps its topic and generation. */
  lemma {:induction false} StaysStep(w: World, step: Step, t: nat)
    requires t in w.readers && t in Next(w, step).readers
    ensures var r, r' := w.readers[t], Next(w, step).readers[t];
      && r'.topic == r.topic && r'.generation == r.generation
      && (r'.Loaded? ==> r.Loaded?)
  {
    hide Grouped, TakesEffect;
  }

  lemma {:induction false} NextReadings(w: World, step: Step)
    requires Sound(w)
    ensures var w' := Next(w, step);
      && (forall t :: t in w'.readers ==> SoundReading(w', w'.readers[t]))
      && (forall topic :: topic in w'.cache ==>
           Repeatable(w', topic, w'.cache[topic].generation, w'.cache[topic].version))
  {
    hide Grouped, Next;
    var w' := Next(w, step);
    LogStep(w, step);
    assert w.changes[..|w.changes|] == w.changes;
    forall t | t in w'.readers ensures SoundReading(w', w'.readers[t]) {
      ReaderStep(w, step, t);
      assert SoundReading(w, w'.readers[t]);
      ReadingStays(w, w', w'.readers[t]);
    }
    forall topic | topic in w'.cache
      ensures Repeatable(w', topic, w'.cache[topic].generation, w'.cache[topic].version) {
      var e := w'.cache[topic];
      CacheStep(w, step, topic);
      if topic !in w.cache || w.cache[topic] != e {
        assert SoundReading(w, w.readers[step.reader]);
      }
      StaysRight(w, w', e.generation, e.version);
    }
  }

  lemma ReadingStays(w: World, w': World, r: Reading)
    requires Extends(w, w') && SoundReading(w, r)
    ensures SoundReading(w', r)
  {
    hide Grouped;
    if r.Computed? || r.Storing? {
      StaysRight(w, w', r.generation, r.version);
    }
  }

  lemma {:induction false} NextAnswers(w: World, step: Step)
    requires Sound(w)
    ensures var w' := Next(w, step);
      forall i :: 0 <= i < |w'.answers| ==> Right(w', w'.answers[i].since, w'.answers[i].version)
  {
    hide Grouped, Next;
    var w' := Next(w, step);
    LogStep(w, step);
    AnswerStep(w, step);
    forall i | 0 <= i < |w'.answers| ensures Right(w', w'.answers[i].since, w'.answers[i].version) {
      var a := w'.answers[i];
      if i < |w.answers| {
        assert a == w.answers[i];
      } else {
        var t :| Answers(w, t, w');
        assert SoundReading(w, w.readers[t]);
      }
      StaysRight(w, w', a.since, a.version);
    }
  }

  /** A pending change was made. */
  ghost predicate PendingMade(w: World) {
    forall t :: t in w.writers && w.writers[t].Changed? ==> w.writers[t].version < |w.changes|
  }

  lemma {:induction false} NextWriters(w: World, step: Step)
    requires PendingMade(w) && Right(w, |w.announced|, |w.changes|)
    ensures PendingMade(Next(w, step)) && Right(Next(w, step), |Next(w, step).announced|, |Next(w, step).changes|)
  {
    hide Grouped, TakesEffect;
  }

  /** Every step of a reader or a writer keeps answers, cached and computed, right. */
  lemma {:induction false} NextSound(w: World, step: Step)
    requires Sound(w)
    ensures Sound(Next(w, step))
  {
    hide Next, SoundReading, Right, Repeatable;
    NextWriters(w, step);
    NextReadings(w, step);
    NextAnswers(w, step);
  }

  /** In every interleaving an answer, cached or not, has every change that was announced before
      the call began, and no answer with a group in it is ever cached. */
  lemma {:induction false} AnswersUpToDate(steps: seq<Step>)
    ensures Sound(Run(steps))
  {
    hide Sound, Next;
    if steps == [] {
      assert Sound(Initial()) by { InitialSound(); }
    } else {
      AnswersUpToDate(steps[..|steps| - 1]);
      NextSound(Run(steps[..|steps| - 1]), steps[|steps| - 1]);
    }
  }

  lemma InitialSound()
    ensures Sound(Initial())
  {
  }

  // ----- What a call can miss -----

  ghost predicate Pending(w: World, t: nat, v: nat) {
    t in w.writers && w.writers[t] == Changed(v)
  }

  /** Every change made is announced, or still with its writer. */
  ghost predicate AllKnown(w: World) {
    forall v: nat :: v < |w.changes| ==> v in w.announced || exists t :: Pending(w, t, v)
  }

  lemma {:induction false} PendingStep(w: World, step: Step, v: nat)
    requires v < |Next(w, step).changes|
    requires v < |w.changes| ==> v in w.announced || exists t :: Pending(w, t, v)
    ensures v in Next(w, step).announced || exists t :: Pending(Next(w, step), t, v)
  {
    hide Grouped, TakesEffect;
    var w' := Next(w, step);
    if v == |w.changes| {
      assert Pending(w', step.writer, v);
    } else if v !in w.announced {
      var t :| Pending(w, t, v);
      PendingStays(w, step, t, v);
    }
  }

  lemma {:induction false} PendingStays(w: World, step: Step, t: nat, v: nat)
    requires Pending(w, t, v)
    ensures v in Next(w, step).announced || Pending(Next(w, step), t, v)
  {
    hide Grouped, TakesEffect;
    if step == Announce(t) {
      assert Next(w, step).announced[|w.announced|] == v;
    }
  }

  lemma {:induction false} NextKnown(w: World, step: Step)
    requires AllKnown(w)
    ensures AllKnown(Next(w, step))
  {
    hide Next, Pending;
    forall v: nat | v < |Next(w, step).changes|
      ensures v in Next(w, step).announced || exists t :: Pending(Next(w, step), t, v) {
      PendingStep(w, step, v);
    }
  }

  lemma {:induction false} RunKnown(steps: seq<Step>)
    ensures AllKnown(Run(steps))
  {
    if steps != [] {
      RunKnown(steps[..|steps| - 1]);
      NextKnown(Run(steps[..|steps| - 1]), steps[|steps| - 1]);
    }
  }

  /** The version of the answer that a reader's call ends with, if it ends within the steps. */
  ghost function Outcome(w: World, t: nat, more: seq<Step>): Option<nat>
    decreases |more|
  {
    if more == [] then None
    else
      var w' := Next(w, more[0]);
      if t in w.readers && t !in w'.readers && w'.answers != [] then Some(w'.answers[|w'.answers| - 1].version)
      else Outcome(w', t, more[1..])
  }

  ghost function Begin(w: World, t: nat, topic: string): World {
    Next(w, Load(t, topic))
  }

  /** Some way to go on gives a call begun here an answer from before a change already made. */
  ghost predicate CanMiss(w: World, t: nat, topic: string) {
    exists more :: var o := Outcome(Begin(w, t, topic), t, more); o.Some? && o.value < |w.changes|
  }

  /** The topics that are about to be stored. */
  ghost function Waiting(w: World): set<string> {
    set t | t in w.readers && w.readers[t].Storing? :: w.readers[t].topic
  }

  /** The cache has room, or may come to have it: by a clearing already decided, or because the
      answers about to be stored make it large enough to be cleared. */
  ghost predicate Room(w: World) {
    || |w.cache| < TOPIC_CACHE_MAX_SIZE
    || !NoClearing(w)
    || |w.cache.Keys + Waiting(w)| > TOPIC_CACHE_MAX_SIZE * 2
  }

  predicate Old(r: Reading, topic: string, g: nat, version: nat)
    requires r.Computed? || r.Storing?
  {
    r.topic == topic && r.generation == g && r.version < version
  }

  predicate OldCached(w: World, topic: string, g: nat, version: nat) {
    topic in w.cache && w.cache[topic].generation == g && w.cache[topic].version < version
  }

  predicate OldStoring(w: World, t: nat, topic: string, g: nat, version: nat) {
    t in w.readers && w.readers[t].Storing? && Old(w.readers[t], topic, g, version)
  }

  /** A group in an answer keeps it out of the cache. */
  predicate OldComputed(w: World, t: nat, topic: string, g: nat, version: nat) {
    t in w.readers && w.readers[t].Computed? && !w.readers[t].shared && Old(w.readers[t], topic, g, version)
  }

  /** An answer from an older trie that passes for one of the generation `g` is in the cache, on
      its way there, or may still be put there. */
  ghost predicate Older(w: World, topic: string, g: nat, version: nat) {
    || OldCached(w, topic, g, version)
    || (exists t :: OldStoring(w, t, topic, g, version))
    || (Room(w) && exists t :: OldComputed(w, t, topic, g, version))
  }

  ghost predicate Stale(w: World, topic: string) {
    Older(w, topic, |w.announced|, |w.changes|)
  }

  // ----- Nothing older comes up -----

  lemma {:induction false} Smaller<T>(a: set<T>, b: set<T>)
    requires a <= b
    ensures |a| <= |b|
  {
    if a != {} {
      var x :| x in a;
      Smaller(a - {x}, b - {x});
    }
  }

  ghost predicate NoClearing(w: World) {
    forall t :: t in w.writers ==> !w.writers[t].Clearing?
  }

  lemma {:induction false} WaitingStep(w: World, step: Step)
    requires |w.cache| >= TOPIC_CACHE_MAX_SIZE && NoClearing(w)
    ensures var w' := Next(w, step); w'.cache.Keys + Waiting(w') <= w.cache.Keys + Waiting(w)
  {
    hide Next, NoClearing;
    var w' := Next(w, step);
    forall topic | topic in w'.cache.Keys + Waiting(w') ensures topic in w.cache.Keys + Waiting(w) {
      if topic in w'.cache {
        CacheStep(w, step, topic);
      } else {
        var t :| t in w'.readers && w'.readers[t].Storing? && w'.readers[t].topic == topic;
        ReaderStep(w, step, t);
      }
    }
  }

  lemma {:induction false} FullStep(w: World, step: Step)
    requires NoClearing(w) && |w.cache| <= TOPIC_CACHE_MAX_SIZE * 2
    ensures NoClearing(Next(w, step)) && w.cache.Keys <= Next(w, step).cache.Keys
  {
    hide Grouped, TakesEffect;
  }

  /** A cache that has no room and none to come stays so. */
  lemma {:induction false} StaysFull(w: World, step: Step)
    requires !Room(w)
    ensures !Room(Next(w, step))
  {
    hide Next, Waiting;
    var w' := Next(w, step);
    Sizes(w);
    Sizes(w');
    Smaller(w.cache.Keys, w.cache.Keys + Waiting(w));
    FullStep(w, step);
    WaitingStep(w, step);
    Smaller(w.cache.Keys, w'.cache.Keys);
    Smaller(w'.cache.Keys + Waiting(w'), w.cache.Keys + Waiting(w));
  }

  lemma Sizes(w: World)
    ensures |w.cache| == |w.cache.Keys|
  {
  }

  lemma {:induction false} NoneOlder(w: World, topic: string, g: nat, version: nat, step: Step)
    requires !Older(w, topic, g, version) && version <= |w.changes|
    ensures !Older(Next(w, step), topic, g, version) && version <= |Next(w, step).changes|
  {
    hide Next, Room;
    var w' := Next(w, step);
    LogStep(w, step);
    if !Room(w) {
      StaysFull(w, step);
      NoRoom(w);
    }
    forall t ensures !OldStoring(w', t, topic, g, version)
             ensures Room(w') ==> !OldComputed(w', t, topic, g, version) {
      assert !OldStoring(w, t, topic, g, version);
      assert Room(w) ==> !OldComputed(w, t, topic, g, version);
      if t in w'.readers {
        ReaderStep(w, step, t);
      }
    }
    if topic in w'.cache {
      CacheStep(w, step, topic);
      assert step.Store? ==> !OldStoring(w, step.reader, topic, g, version);
    }
  }

  lemma NoRoom(w: World)
    requires !Room(w)
    ensures |w.cache| >= TOPIC_CACHE_MAX_SIZE
  {
  }

  /** A reader on its way, with what it loaded; what it has computed is no older than `version`. */
  ghost predicate OnItsWay(w: World, t: nat, topic: string, g: nat, version: nat) {
    && t in w.readers && w.readers[t].topic == topic && w.readers[t].generation == g
    && (w.readers[t].Computed? || w.readers[t].Storing? ==> w.readers[t].version >= version)
  }

  lemma {:induction false} StaysOnItsWay(w: World, t: nat, topic: string, g: nat, version: nat, step: Step)
    requires OnItsWay(w, t, topic, g, version) && version <= |w.changes| && !OldCached(w, topic, g, version)
    ensures var w' := Next(w, step);
      if t in w'.readers then OnItsWay(w', t, topic, g, version)
      else w'.answers != [] && w'.answers[|w'.answers| - 1].version >= version
  {
    hide Next, Grouped;
    if t in Next(w, step).readers {
      ReaderStep(w, step, t);
      StaysStep(w, step, t);
    } else {
      GoneStep(w, step, t);
    }
  }

  /** Without an older answer around, none comes up later. */
  lemma {:induction false} OutcomeNew(w: World, t: nat, topic: string, g: nat, version: nat, more: seq<Step>)
    requires OnItsWay(w, t, topic, g, version) && !Older(w, topic, g, version) && version <= |w.changes|
    ensures Outcome(w, t, more).Some? ==> Outcome(w, t, more).value >= version
    decreases |more|
  {
    hide Next, OldCached, OldStoring, OldComputed, Room;
    if more != [] {
      var w' := Next(w, more[0]);
      StaysOnItsWay(w, t, topic, g, version, more[0]);
      NoneOlder(w, topic, g, version, more[0]);
      if t in w'.readers {
        OutcomeNew(w', t, topic, g, version, more[1..]);
      }
    }
  }

  // ----- An older answer reaches the call -----

  /** Steps of others put off the call's outcome. */
  lemma OutcomeAfter(w: World, t: nat, step: Step, more: seq<Step>)
    requires t in w.readers && t in Next(w, step).readers
    ensures Outcome(w, t, [step] + more) == Outcome(Next(w, step), t, more)
  {
    hide Next;
    assert ([step] + more)[1..] == more;
  }

  /** A call that waits to look into the cache. */
  predicate Looking(w: World, t: nat, topic: string, g: nat) {
    t in w.readers && w.readers[t] == Loaded(topic, g)
  }

  ghost predicate Misses(w: World, t: nat, more: seq<Step>, version: nat) {
    Outcome(w, t, more).Some? && Outcome(w, t, more).value < version
  }

  lemma {:induction false} CachedReaches(w: World, t: nat, topic: string, g: nat, version: nat)
    returns (more: seq<Step>)
    requires Looking(w, t, topic, g) && OldCached(w, topic, g, version)
    ensures Misses(w, t, more, version)
  {
    more := [Look(t)];
    assert Outcome(w, t, more) == Some(w.cache[topic].version);
  }

  lemma {:induction false} StoringReaches(w: World, t: nat, r: nat, topic: string, g: nat, version: nat)
    returns (more: seq<Step>)
    requires Looking(w, t, topic, g) && OldStoring(w, r, topic, g, version)
    ensures Misses(w, t, more, version)
  {
    hide Outcome;
    var w' := Next(w, Store(r));
    more := CachedReaches(w', t, topic, g, version);
    OutcomeAfter(w, t, Store(r), more);
    more := [Store(r)] + more;
  }

  lemma {:induction false} DecideReaches(w: World, t: nat, r: nat, topic: string, g: nat, version: nat)
    returns (more: seq<Step>)
    requires Looking(w, t, topic, g) && OldComputed(w, r, topic, g, version) && |w.cache| < TOPIC_CACHE_MAX_SIZE
    ensures Misses(w, t, more, version)
  {
    hide Outcome;
    var w' := Next(w, Decide(r));
    more := StoringReaches(w', t, r, topic, g, version);
    OutcomeAfter(w, t, Decide(r), more);
    more := [Decide(r)] + more;
  }

  lemma {:induction false} ClearReaches(w: World, t: nat, r: nat, x: nat, topic: string, g: nat, version: nat)
    returns (more: seq<Step>)
    requires Looking(w, t, topic, g) && OldComputed(w, r, topic, g, version)
    requires x in w.writers && w.writers[x].Clearing?
    ensures Misses(w, t, more, version)
  {
    hide Outcome;
    var w' := Next(w, Clear(x));
    more := DecideReaches(w', t, r, topic, g, version);
    OutcomeAfter(w, t, Clear(x), more);
    more := [Clear(x)] + more;
  }

  lemma {:induction false} Fresh(s: set<nat>) returns (x: nat)
    ensures forall y :: y in s ==> y < x
  {
    x := 0;
    if s != {} {
      var y :| y in s;
      var rest := Fresh(s - {y});
      x := if y < rest then rest else y + 1;
      forall z | z in s ensures z < x {
        assert z == y || z in s - {y};
      }
    }
  }

  /** A new writer finds the cache too large. */
  lemma {:induction false} LargeReaches(w: World, t: nat, r: nat, topic: string, g: nat, version: nat)
    returns (more: seq<Step>)
    requires Looking(w, t, topic, g) && OldComputed(w, r, topic, g, version)
    requires |w.cache| > TOPIC_CACHE_MAX_SIZE * 2
    ensures Misses(w, t, more, version)
  {
    hide Outcome;
    var x := Fresh(w.writers.Keys);
    var change := ClientGone("");
    var w1 := Next(w, Write(x, change));
    var w2 := Next(w1, Announce(x));
    var w3 := Next(w2, Measure(x));
    more := ClearReaches(w3, t, r, x, topic, g, version);
    OutcomeAfter(w2, t, Measure(x), more);
    more := [Measure(x)] + more;
    OutcomeAfter(w1, t, Announce(x), more);
    more := [Announce(x)] + more;
    OutcomeAfter(w, t, Write(x, change), more);
    more := [Write(x, change)] + more;
  }

  /** One of the answers about to be stored makes the cache larger. */
  lemma {:induction false} StoreOne(w: World) returns (x: nat)
    requires |w.cache.Keys + Waiting(w)| > |w.cache|
    ensures x in w.readers && w.readers[x].Storing?
    ensures var w' := Next(w, Store(x));
      w'.cache.Keys + Waiting(w') == w.cache.Keys + Waiting(w) && w'.readers == w.readers - {x}
  {
    hide Next;
    Sizes(w);
    assert Waiting(w) <= w.cache.Keys ==> w.cache.Keys + Waiting(w) == w.cache.Keys;
    var topic :| topic in Waiting(w) && topic !in w.cache.Keys;
    x :| x in w.readers && w.readers[x].Storing? && w.readers[x].topic == topic;
    StoreStep(w, x);
    WaitingWithout(w, x);
  }

  lemma {:induction false} WaitingWithout(w: World, x: nat)
    requires x in w.readers && w.readers[x].Storing?
    ensures Waiting(w) == Waiting(w.(readers := w.readers - {x})) + {w.readers[x].topic}
  {
    var readers := w.readers - {x};
    forall y | y in Waiting(w) && y != w.readers[x].topic ensures y in Waiting(w.(readers := readers)) {
      var z :| z in w.readers && w.readers[z].Storing? && w.readers[z].topic == y;
      assert z in readers && readers[z] == w.readers[z];
    }
  }

  lemma StoreStep(w: World, x: nat)
    requires x in w.readers && w.readers[x].Storing?
    ensures var w' := Next(w, Store(x));
      && w'.cache.Keys == w.cache.Keys + {w.readers[x].topic} && w'.readers == w.readers - {x}
      && w'.writers == w.writers && Waiting(w') == Waiting(w.(readers := w'.readers))
  {
    hide Grouped, TakesEffect;
  }

  lemma {:induction false} FullReaches(w: World, t: nat, r: nat, topic: string, g: nat, version: nat)
    returns (more: seq<Step>)
    requires Looking(w, t, topic, g) && OldComputed(w, r, topic, g, version)
    requires |w.cache.Keys + Waiting(w)| > TOPIC_CACHE_MAX_SIZE * 2
    ensures Misses(w, t, more, version)
    decreases |w.readers.Keys|
  {
    hide Outcome, Next, Waiting;
    if |w.cache| > TOPIC_CACHE_MAX_SIZE * 2 {
      more := LargeReaches(w, t, r, topic, g, version);
    } else {
      var x := StoreOne(w);
      var w' := Next(w, Store(x));
      assert w'.readers.Keys == w.readers.Keys - {x};
      more := FullReaches(w', t, r, topic, g, version);
      OutcomeAfter(w, t, Store(x), more);
      more := [Store(x)] + more;
    }
  }

  lemma {:induction false} OlderReaches(w: World, t: nat, topic: string, g: nat, version: nat)
    returns (more: seq<Step>)
    requires Looking(w, t, topic, g) && Older(w, topic, g, version)
    ensures Misses(w, t, more, version)
  {
    hide OldCached, OldStoring, OldComputed, Misses, Waiting;
    if OldCached(w, topic, g, version) {
      more := CachedReaches(w, t, topic, g, version);
    } else if r :| OldStoring(w, r, topic, g, version) {
      more := StoringReaches(w, t, r, topic, g, version);
    } else {
      var r :| OldComputed(w, r, topic, g, version);
      if |w.cache| < TOPIC_CACHE_MAX_SIZE {
        more := DecideReaches(w, t, r, topic, g, version);
      } else if x :| x in w.writers && w.writers[x].Clearing? {
        more := ClearReaches(w, t, r, x, topic, g, version);
      } else {
        more := FullReaches(w, t, r, topic, g, version);
      }
    }
  }

  lemma {:induction false} Begins(w: World, t: nat, topic: string)
    requires t !in w.readers
    ensures var w' := Begin(w, t, topic);
      && Looking(w', t, topic, |w.announced|) && w'.changes == w.changes
      && (Older(w', topic, |w.announced|, |w.changes|) <==> Stale(w, topic))
  {
    hide Room, Older;
    var w' := Begin(w, t, topic);
    assert w' == w.(readers := w.readers[t := Loaded(topic, |w.announced|)]);
    OneMoreLoaded(w, t, topic, |w.announced|);
    OneMoreOlder(w, t, topic, |w.announced|, |w.changes|);
  }

  /** Another call that has only loaded the generation stores nothing. */
  lemma {:induction false} OneMoreLoaded(w: World, t: nat, topic: string, g: nat)
    requires t !in w.readers
    ensures Room(w.(readers := w.readers[t := Loaded(topic, g)])) <==> Room(w)
  {
    var w' := w.(readers := w.readers[t := Loaded(topic, g)]);
    assert Waiting(w') == Waiting(w) by {
      forall x | x in w.readers ensures x in w'.readers && w'.readers[x] == w.readers[x] {
      }
    }
  }

  lemma {:induction false} OneMoreOlder(w: World, t: nat, topic: string, g: nat, version: nat)
    requires t !in w.readers
    ensures Older(w.(readers := w.readers[t := Loaded(topic, g)]), topic, g, version) <==> Older(w, topic, g, version)
  {
    hide Room;
    var w' := w.(readers := w.readers[t := Loaded(topic, g)]);
    OneMoreLoaded(w, t, topic, g);
    forall x ensures OldStoring(w', x, topic, g, version) <==> OldStoring(w, x, topic, g, version) {
    }
    forall x ensures OldComputed(w', x, topic, g, version) <==> OldComputed(w, x, topic, g, version) {
    }
  }

  /** In every world a call begun there can miss a change already made if and only if an answer for
      its topic at the current generation from an older trie is cached, has been found room for, or
      has been computed without a group while the cache has room or may come to have it. */
  lemma {:induction false} MissIff(w: World, t: nat, topic: string)
    requires t !in w.readers
    ensures CanMiss(w, t, topic) <==> Stale(w, topic)
  {
    hide Next, Outcome, Older, Stale, Begin;
    var w' := Begin(w, t, topic);
    Begins(w, t, topic);
    if Stale(w, topic) {
      var more := OlderReaches(w', t, topic, |w.announced|, |w.changes|);
      assert Outcome(w', t, more).Some?;
    } else {
      forall more ensures Outcome(w', t, more).Some? ==> Outcome(w', t, more).value >= |w.changes| {
        OutcomeNew(w', t, topic, |w.announced|, |w.changes|, more);
      }
    }
  }

  // ----- When nothing is missed -----

  /** With no writer between its change and the announcement, nothing is missed. */
  lemma {:induction false} NothingMissed(steps: seq<Step>, t: nat, topic: string)
    requires var w := Run(steps); t !in w.readers && forall x :: x in w.writers ==> !w.writers[x].Changed?
    ensures !CanMiss(Run(steps), t, topic)
  {
    hide Run, CanMiss, Sound, Stale;
    var w := Run(steps);
    AnswersUpToDate(steps);
    RunKnown(steps);
    MissIff(w, t, topic);
    if Stale(w, topic) {
      var version := StaleVersion(w, topic);
      OnlyNewest(w, version);
    }
  }

  lemma OnlyNewest(w: World, version: nat)
    requires AllKnown(w) && (forall x :: x in w.writers ==> !w.writers[x].Changed?) && version < |w.changes|
    ensures !Right(w, |w.announced|, version)
  {
    assert version in w.announced;
  }

  /** Behind a stale answer is a version without groups for the topic that has every announced
      change and is not the newest. */
  lemma {:induction false} StaleVersion(w: World, topic: string) returns (version: nat)
    requires Sound(w) && Stale(w, topic)
    ensures version < |w.changes| && Repeatable(w, topic, |w.announced|, version)
  {
    hide Grouped, Room;
    if OldCached(w, topic, |w.announced|, |w.changes|) {
      version := w.cache[topic].version;
    } else if t :| OldStoring(w, t, topic, |w.announced|, |w.changes|) {
      assert SoundReading(w, w.readers[t]);
      version := w.readers[t].version;
    } else {
      var t :| OldComputed(w, t, topic, |w.announced|, |w.changes|);
      assert SoundReading(w, w.readers[t]);
      version := w.readers[t].version;
    }
  }

  /** A topic with a group in every version that has the announced changes is never missed. */
  lemma {:induction false} GroupedNeverMissed(steps: seq<Step>, t: nat, topic: string)
    requires var w := Run(steps); t !in w.readers && forall version: nat ::
      version < |w.changes| && UpToDate(w.announced, |w.announced|, version) ==> Grouped(w.changes[..version], topic)
    ensures !CanMiss(Run(steps), t, topic)
  {
    hide Run, CanMiss, Sound, Stale, Grouped;
    var w := Run(steps);
    AnswersUpToDate(steps);
    MissIff(w, t, topic);
    if Stale(w, topic) {
      var version := StaleVersion(w, topic);
    }
  }

  /** A subscription that is made but not yet announced can be missed by a later call. */
  lemma {:induction false} UnannouncedCanBeMissed(topic: string, filter: string, sub: Subscription)
    ensures var change := Subscribed(filter, sub);
      var w := Run([Load(0, topic), Look(0), Compute(0), Decide(0), Store(0),
                    Write(1, change), Load(2, topic), Look(2)]);
      w.changes == [change] && w.answers == [Answer(0, topic, 0, 0), Answer(2, topic, 0, 0)]
  {
    hide Run;
    var change := Subscribed(filter, sub);
    var s5 := [Load(0, topic), Look(0), Compute(0), Decide(0), Store(0)];
    var s6 := s5 + [Write(1, change)];
    var s7 := s6 + [Load(2, topic)];
    FirstCall(topic);
    var cache := map[topic := Entry(0, 0)];
    var answers := [Answer(0, topic, 0, 0)];
    assert Run(s6) == World([change], [], map[1 := Changed(0)], cache, map[], answers) by {
      RunStep(s5, Write(1, change));
    }
    assert Run(s7) == World([change], [], map[1 := Changed(0)], cache, map[2 := Loaded(topic, 0)], answers) by {
      RunStep(s6, Load(2, topic));
    }
    RunStep(s7, Look(2));
    assert s7 + [Look(2)] == [Load(0, topic), Look(0), Compute(0), Decide(0), Store(0),
                              Write(1, change), Load(2, topic), Look(2)];
  }

  lemma {:induction false} FirstCall(topic: string)
    ensures Run([Load(0, topic), Look(0), Compute(0), Decide(0), Store(0)])
      == World([], [], map[], map[topic := Entry(0, 0)], map[], [Answer(0, topic, 0, 0)])
  {
    hide Run, Grouped;
    var s1 := [Load(0, topic)];
    var s2 := s1 + [Look(0)];
    var s3 := s2 + [Compute(0)];
    var s4 := s3 + [Decide(0)];
    assert Run(s1) == World([], [], map[], map[], map[0 := Loaded(topic, 0)], []) by {
      RunNothing();
      RunStep([], Load(0, topic));
      assert [] + [Load(0, topic)] == s1;
    }
    assert Run(s2) == World([], [], map[], map[], map[0 := Missed(topic, 0)], []) by { RunStep(s1, Look(0)); }
    assert Run(s3) == World([], [], map[], map[], map[0 := Computed(topic, 0, 0, false)], []) by {
      RunStep(s2, Compute(0));
      NobodyGrouped(topic);
    }
    assert Run(s4) == World([], [], map[], map[], map[0 := Storing(topic, 0, 0)], []) by { RunStep(s3, Decide(0)); }
    RunStep(s4, Store(0));
    assert s4 + [Store(0)] == [Load(0, topic), Look(0), Compute(0), Decide(0), Store(0)];
  }

  lemma NobodyGrouped(topic: string)
    ensures !Grouped([], topic)
  {
  }

  lemma RunNothing()
    ensures Run([]) == Initial()
  {
  }

  lemma RunStep(steps: seq<Step>, step: Step)
    ensures Run(steps + [step]) == Next(Run(steps), step)
  {
    assert (steps + [step])[..|steps|] == steps;
  }
}
