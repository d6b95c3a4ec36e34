/**
 * The mutable state of the falling-words scene: spawn counters, the live
 * word bodies with their elements, the one-shot guards and the callbacks the
 * script schedules. Physics, DOM, audio and timers are outside: positions,
 * touching lists, measured sizes and random draws come in as parameters, and
 * a scheduled callback is recorded as a `Task` with its delay.
 */
module FallingWords {
  import opened Optional
  import opened Settings
  import opened Geometry
  import opened Spawning
  import opened Selection
  import opened Blast
  import opened Choreography

  /** A live word: its body id, its text and where it was created (an entry of `domById`). */
  datatype Token = Token(id: nat, text: string, spawn: Placement)

  /** The words a run of consecutive spawns creates, one per draw, with consecutive ids and word indices. */
  function Batch(c: Config, viewW: real, id0: nat, index0: nat, ds: seq<Draw>): seq<Token>
    requires WellFormed(c)
  {
    seq(|ds|, k requires 0 <= k < |ds| => Token(id0 + k, WordAt(c.words, index0 + k), Place(c, viewW, ds[k])))
  }

  lemma BatchStep(c: Config, viewW: real, id0: nat, index0: nat, ds: seq<Draw>, i: nat)
    requires WellFormed(c) && i < |ds|
    ensures Batch(c, viewW, id0, index0, ds[..i + 1])
         == Batch(c, viewW, id0, index0, ds[..i]) + [Token(id0 + i, WordAt(c.words, index0 + i), Place(c, viewW, ds[i]))]
  {
  }

  /** The ids of the ground and of the two side walls. */
  datatype Walls = Walls(ground: nat, left: nat, right: nat)

  /** The chosen word: not yet chosen, blinking and waiting for a click, or clicked. */
  datatype Arm = Unarmed | Blinking(id: nat, periodMs: int) | Clicked(id: nat)

  datatype TaskKind =
    | FinalizeSelectionTask   // finalizeSelection, after the settle delay
    | PopCueTask              // the pop sound, slightly before the blast
    | BlastTask               // triggerBlast, after the turn-red transition
    | RemoveChosenTask        // removal of the chosen word after its fade
    | PianoTask               // the music after the blast
    | PostMessagesTask        // showPostMessages

  /** A callback handed to `setTimeout`, with its delay in milliseconds. */
  datatype Task = Task(kind: TaskKind, delayMs: int)

  /** What `triggerBlast` captures: the chosen id, the blast centre, the word bodies and the wind deadline. */
  datatype BlastState = BlastState(chosen: nat, centre: Point, words: seq<nat>, windEnd: real)

  const SettleDelayMs := 600
  const ChosenFadeMs := 320

  function Ids(s: seq<Token>): (r: seq<nat>)
    ensures |r| == |s|
    ensures forall i :: 0 <= i < |s| ==> r[i] == s[i].id
  {
    seq(|s|, i requires 0 <= i < |s| => s[i].id)
  }

  ghost predicate DistinctIds(s: seq<Token>) {
    forall i, j :: 0 <= i < j < |s| ==> s[i].id != s[j].id
  }

  /** The callbacks a click schedules: the pop cue slightly early, the blast when the transition ends. */
  function ClickTasks(c: Config): seq<Task> {
    [Task(PopCueTask, PreDelay(c.redTransitionMs, c.soundPopPreMs.GetOr(100))), Task(BlastTask, c.redTransitionMs)]
  }

  /** The callbacks the blast schedules: the chosen word's removal, the music and the messages. */
  function BlastTasks(c: Config): seq<Task> {
    [Task(RemoveChosenTask, ChosenFadeMs),
     Task(PianoTask, c.soundPianoDelayMs.GetOr(600)),
     Task(PostMessagesTask, c.postMessageDelayMs.GetOr(3000))]
  }

  /** How many scheduled callbacks are of the given kind. */
  function Count(s: seq<Task>, kind: TaskKind): nat {
    if s == [] then 0
    else Count(s[..|s| - 1], kind) + (if s[|s| - 1].kind == kind then 1 else 0)
  }

  lemma {:induction false} CountConcat(a: seq<Task>, b: seq<Task>, kind: TaskKind)
    ensures Count(a + b, kind) == Count(a, kind) + Count(b, kind)
    decreases |b|
  {
    if b == [] {
      assert a + b == a;
    } else {
      var n := |b| - 1;
      CountConcat(a, b[..n], kind);
      assert (a + b)[..|a + b| - 1] == a + b[..n];
    }
  }

  /** Each kind of callback belongs to exactly one phase, and appears there once. */
  lemma PhaseTasksDistinct(c: Config, kind: TaskKind)
    ensures Count([Task(FinalizeSelectionTask, SettleDelayMs)], kind) == (if kind == FinalizeSelectionTask then 1 else 0)
    ensures Count(ClickTasks(c), kind) == (if kind == PopCueTask || kind == BlastTask then 1 else 0)
    ensures Count(BlastTasks(c), kind)
         == (if kind == RemoveChosenTask || kind == PianoTask || kind == PostMessagesTask then 1 else 0)
  {
    assert [Task(FinalizeSelectionTask, SettleDelayMs)][..0] == [];
    var click := ClickTasks(c);
    assert click[..1][..0] == [];
    assert Count(click, kind) == Count(click[..1], kind) + (if click[1].kind == kind then 1 else 0);
    var boom := BlastTasks(c);
    assert boom[..2][..1][..0] == [];
    assert Count(boom[..2], kind) == Count(boom[..2][..1], kind) + (if boom[1].kind == kind then 1 else 0);
    assert Count(boom, kind) == Count(boom[..2], kind) + (if boom[2].kind == kind then 1 else 0);
  }

  /** The entries of `s` whose key is not `id`, in order: deleting key `id` from the map. */
  function WithoutKey(s: seq<Token>, id: nat): seq<Token> {
    if s == [] then []
    else if s[0].id == id then WithoutKey(s[1..], id)
    else [s[0]] + WithoutKey(s[1..], id)
  }

  /** Deleting key `id` removes exactly the entries with that key, and never lengthens the map. */
  lemma {:induction false} WithoutKeyMembers(s: seq<Token>, id: nat)
    ensures |WithoutKey(s, id)| <= |s|
    ensures forall t :: t in WithoutKey(s, id) <==> t in s && t.id != id
  {
    if s != [] {
      WithoutKeyMembers(s[1..], id);
      assert forall t :: t in s <==> t == s[0] || t in s[1..];
    }
  }

  /** Deleting a key keeps every remaining id below a bound the map already respected. */
  lemma {:induction false} WithoutKeyBounded(s: seq<Token>, id: nat, bound: nat)
    requires forall i :: 0 <= i < |s| ==> s[i].id < bound
    ensures |WithoutKey(s, id)| <= |s|
    ensures forall i :: 0 <= i < |WithoutKey(s, id)| ==> WithoutKey(s, id)[i].id < bound
  {
    if s != [] {
      WithoutKeyBounded(s[1..], id, bound);
    }
  }

  /** Deleting a key the map does not hold changes nothing. */
  lemma {:induction false} WithoutAbsentKey(s: seq<Token>, id: nat)
    requires forall i :: 0 <= i < |s| ==> s[i].id != id
    ensures WithoutKey(s, id) == s
  {
    if s != [] {
      WithoutAbsentKey(s[1..], id);
    }
  }

  /** Deleting a key keeps the remaining keys distinct. */
  lemma {:induction false} WithoutKeyDistinct(s: seq<Token>, id: nat)
    requires DistinctIds(s)
    ensures DistinctIds(WithoutKey(s, id))
  {
    if s != [] {
      var rest := WithoutKey(s[1..], id);
      WithoutKeyDistinct(s[1..], id);
      WithoutKeyMembers(s[1..], id);
      if s[0].id != id {
        var r := [s[0]] + rest;
        forall i, j | 0 <= i < j < |r| ensures r[i].id != r[j].id {
          if i == 0 {
            assert r[j] in rest;
            var k :| 0 <= k < |s[1..]| && s[1..][k] == r[j];
            assert s[k + 1] == r[j];
          } else {
            assert r[i] == rest[i - 1] && r[j] == rest[j - 1];
          }
        }
      }
    }
  }

  /** Deleting an entry and removing its body from the world (`Others`, the same filter on ids) stay in step. */
  lemma {:induction false} WithoutPaired(s: seq<Token>, id: nat)
    ensures Ids(WithoutKey(s, id)) == Others(Ids(s), id)
  {
    if s == [] {
      assert Ids(s) == [];
    } else {
      var rest := WithoutKey(s[1..], id);
      WithoutPaired(s[1..], id);
      IdsCons(s[0], s[1..]);
      assert [s[0]] + s[1..] == s;
      OthersCons(s[0].id, Ids(s[1..]), id);
      if s[0].id != id {
        IdsCons(s[0], rest);
      }
    }
  }

  lemma IdsCons(t: Token, s: seq<Token>)
    ensures Ids([t] + s) == [t.id] + Ids(s)
  {
  }

  /** Deleting the first key of a map without repeated keys removes exactly the first entry. */
  lemma DeleteOldest(s: seq<Token>)
    requires |s| > 0 && DistinctIds(s)
    ensures WithoutKey(s, s[0].id) == s[1..]
  {
    WithoutAbsentKey(s[1..], s[0].id);
  }

  /** Deleting the oldest key, and its body, from a paired map keeps the rest paired. */
  lemma EvictFirst(s: seq<Token>, bound: nat)
    requires |s| > 0 && DistinctIds(s)
    requires forall i :: 0 <= i < |s| ==> s[i].id < bound
    ensures WithoutKey(s, s[0].id) == s[1..]
    ensures Others(Ids(s), s[0].id) == Ids(s[1..])
    ensures DistinctIds(s[1..])
    ensures forall i :: 0 <= i < |s[1..]| ==> s[1..][i].id < bound
  {
    DeleteOldest(s);
    WithoutPaired(s, s[0].id);
    WithoutKeyDistinct(s, s[0].id);
  }

  /** The impulse loop of the blast: one velocity and spin per word body other than the chosen one. */
  method KickAll(words: seq<nat>, chosen: nat, c: Point, obs: map<nat, Observed>, draws: map<nat, KickDraw>,
                 strength: real, spinMax: real) returns (acc: seq<Kick>)
    requires forall id :: id in words ==> id in obs && id in draws
    ensures acc == Kicks(words, chosen, c, obs, draws, strength, spinMax)
  {
    acc := [];
    var i := 0;
    while i < |words|
      invariant 0 <= i <= |words|
      invariant acc == Kicks(words[..i], chosen, c, obs, draws, strength, spinMax)
    {
      var id := words[i];
      assert words[..i + 1] == words[..i] + [id];
      KicksExtend(words[..i], id, chosen, c, obs, draws, strength, spinMax);
      if id != chosen {
        acc := acc + [KickFor(id, obs[id], c, strength, spinMax, draws[id])];
      }
      i := i + 1;
    }
    assert words[..i] == words;
  }

  /** The wind loop of one engine tick: one outward force per captured word body other than the chosen one. */
  method PushAll(words: seq<nat>, chosen: nat, c: Point, obs: map<nat, Observed>,
                 windBase: real, mult: real) returns (forces: seq<Force>)
    requires forall id :: id in words ==> id in obs
    ensures forces == WindForces(words, chosen, c, obs, windBase, mult)
  {
    forces := [];
    var i := 0;
    while i < |words|
      invariant 0 <= i <= |words|
      invariant forces == WindForces(words[..i], chosen, c, obs, windBase, mult)
    {
      var id := words[i];
      assert words[..i + 1] == words[..i] + [id];
      WindForcesExtend(words[..i], id, chosen, c, obs, windBase, mult);
      if id != chosen {
        forces := forces + [Force(id, Outward(obs[id].pos, c, obs[id].dist, 20.0, windBase * mult))];
      }
      i := i + 1;
    }
    assert words[..i] == words;
  }

  /** The `domById.forEach` pass of the chosen word's removal: every entry of that word is deleted. */
  method DeleteEntries(s: seq<Token>, id: nat) returns (kept: seq<Token>)
    ensures kept == WithoutKey(s, id)
  {
    kept := [];
    var i := 0;
    while i < |s|
      invariant 0 <= i <= |s|
      invariant kept + WithoutKey(s[i..], id) == WithoutKey(s, id)
    {
      ghost var rest := WithoutKey(s[i + 1..], id);
      assert s[i..][1..] == s[i + 1..];
      assert WithoutKey(s[i..], id) == if s[i].id == id then rest else [s[i]] + rest;
      if s[i].id != id {
        assert kept + ([s[i]] + rest) == (kept + [s[i]]) + rest;
        kept := kept + [s[i]];
      }
      i := i + 1;
    }
  }

  class Scene {
    const cfg: Config
    var viewW: nat                  // W(), the scene's client width
    var viewH: nat                  // H(), the scene's client height
    var nextId: nat                 // the id the physics world gives the next body
    var walls: Option<Walls>        // ground and side walls; None once removed
    var boundariesRemoved: bool
    var sensor: nat                 // id of the centre sensor
    var dom: seq<Token>             // domById, in insertion order
    var bodies: seq<nat>            // the world's word bodies, in world order
    var wordIndex: nat
    var spawnedCount: nat
    var spawnTimerActive: bool      // spawnTimer is set
    var selectionScheduled: bool
    var arm: Arm
    var blastTriggered: bool
    var blast: Option<BlastState>
    var kicks: seq<Kick>            // velocities set by the blast's initial impulse
    var windActive: bool            // the wind handler is registered
    var scheduled: seq<Task>        // every callback scheduled so far, in order

    /** Every live body has exactly one element and vice versa; ids are unique and already issued. */
    ghost predicate Paired()
      reads this`dom, this`bodies, this`nextId
    {
      && bodies == Ids(dom)
      && DistinctIds(dom)
      && (forall i :: 0 <= i < |dom| ==> dom[i].id < nextId)
    }

    /** The spawn count never passes a finite limit, and every live word was spawned. */
    ghost predicate Counted()
      reads this`dom, this`spawnedCount
    {
      && (cfg.spawnLimit.Some? ==> spawnedCount <= cfg.spawnLimit.value)
      && |dom| <= spawnedCount
    }

    /** The one-way switches: boundaries gone once removed, blast and wind only after removal. */
    ghost predicate Phases()
      reads this`boundariesRemoved, this`walls, this`blastTriggered, this`blast, this`windActive
    {
      && (boundariesRemoved <==> walls.None?)
      && (blastTriggered <==> blast.Some?)
      && (blastTriggered ==> boundariesRemoved)
      && (windActive ==> blastTriggered)
    }

    /**
     * The callbacks scheduled so far follow from the phase: the selection once
     * a finite spawn run is exhausted, the cue and the blast after the click,
     * the aftermath after the blast.
     */
    ghost predicate Timers()
      reads this`scheduled, this`selectionScheduled, this`spawnedCount, this`arm, this`blastTriggered
    {
      && scheduled == (if selectionScheduled then [Task(FinalizeSelectionTask, SettleDelayMs)] else [])
                      + (if arm.Clicked? then ClickTasks(cfg) else [])
                      + (if blastTriggered then BlastTasks(cfg) else [])
      && (selectionScheduled ==> cfg.spawnLimit.Some? && spawnedCount == cfg.spawnLimit.value)
      && (!arm.Unarmed? ==> selectionScheduled)
      && (blastTriggered ==> arm.Clicked?)
    }

    ghost predicate Valid()
      reads this
    {
      WellFormed(cfg) && Paired() && Counted() && Phases() && Timers()
    }

    /** No callback is ever scheduled twice. */
    lemma CallbacksOnce(kind: TaskKind)
      requires Valid()
      ensures Count(scheduled, kind) <= 1
    {
      var sel := if selectionScheduled then [Task(FinalizeSelectionTask, SettleDelayMs)] else [];
      var click := if arm.Clicked? then ClickTasks(cfg) else [];
      var boom := if blastTriggered then BlastTasks(cfg) else [];
      CountConcat(sel + click, boom, kind);
      CountConcat(sel, click, kind);
      PhaseTasksDistinct(cfg, kind);
      assert Count([], kind) == 0;
    }

    /** The scene at page load: boundaries and sensor created, nothing spawned. */
    constructor (c: Config, w: nat, h: nat)
      requires WellFormed(c)
      ensures Valid()
      ensures cfg == c && viewW == w && viewH == h
      ensures walls == Some(Walls(0, 1, 2)) && sensor == 3 && nextId == 4
      ensures dom == [] && spawnedCount == 0 && wordIndex == 0 && !spawnTimerActive
      ensures !boundariesRemoved && !selectionScheduled && !blastTriggered && arm == Unarmed
      ensures scheduled == [] && kicks == [] && !windActive
    {
      cfg, viewW, viewH := c, w, h;
      walls, boundariesRemoved := Some(Walls(0, 1, 2)), false;
      sensor, nextId := 3, 4;
      dom, bodies := [], [];
      wordIndex, spawnedCount := 0, 0;
      spawnTimerActive, selectionScheduled := false, false;
      arm, blastTriggered, blast := Unarmed, false, None;
      kicks, windActive, scheduled := [], false, [];
    }

    /** `nextWord`: the text at the cyclic index, then the index advances. */
    method NextWord() returns (text: string)
      requires WellFormed(cfg)
      modifies this`wordIndex
      ensures text == WordAt(cfg.words, old(wordIndex))
      ensures wordIndex == old(wordIndex) + 1
    {
      text := cfg.words[wordIndex % |cfg.words|];
      wordIndex := wordIndex + 1;
    }

    /** `addWord`: a new body and its element, entered last in both the world and the map. */
    method AddWord(text: string, d: Draw) returns (id: nat)
      requires Paired()
      modifies this`dom, this`bodies, this`nextId
      ensures Paired()
      ensures id == old(nextId) && nextId == old(nextId) + 1
      ensures dom == old(dom) + [Token(id, text, Place(cfg, viewW as real, d))]
      ensures bodies == old(bodies) + [id]
    {
      id := nextId;
      nextId := nextId + 1;
      bodies := bodies + [id];
      dom := dom + [Token(id, text, Place(cfg, viewW as real, d))];
    }

    /** `spawnOne`: refused, changing nothing, once the limit is reached; otherwise exactly one new word. */
    method SpawnOne(d: Draw) returns (ok: bool)
      requires Valid()
      modifies this`dom, this`bodies, this`nextId, this`wordIndex, this`spawnedCount
      ensures Valid()
      ensures ok == CanSpawnMore(cfg.spawnLimit, old(spawnedCount))
      ensures !ok ==> dom == old(dom) && bodies == old(bodies) && nextId == old(nextId)
                      && wordIndex == old(wordIndex) && spawnedCount == old(spawnedCount)
      ensures ok ==> && spawnedCount == old(spawnedCount) + 1
                     && wordIndex == old(wordIndex) + 1
                     && nextId == old(nextId) + 1
                     && dom == old(dom) + [Token(old(nextId), WordAt(cfg.words, old(wordIndex)), Place(cfg, viewW as real, d))]
    {
      if !CanSpawnMore(cfg.spawnLimit, spawnedCount) {
        return false;
      }
      var text := NextWord();
      var _ := AddWord(text, d);
      spawnedCount := spawnedCount + 1;
      return true;
    }

    /** `finalizeSelectionDelayed`: the first call schedules the selection, every later call does nothing. */
    method FinalizeSelectionDelayed()
      requires Valid()
      requires cfg.spawnLimit.Some? && !CanSpawnMore(cfg.spawnLimit, spawnedCount)
      modifies this`selectionScheduled, this`scheduled
      ensures Valid() && selectionScheduled
      ensures scheduled == old(scheduled) + (if old(selectionScheduled) then [] else [Task(FinalizeSelectionTask, SettleDelayMs)])
    {
      if selectionScheduled {
        return;
      }
      selectionScheduled := true;
      scheduled := scheduled + [Task(FinalizeSelectionTask, SettleDelayMs)];
    }

    /** The initial burst of `startSpawning`: spawns until `initialBurst` words or the first refusal. */
    method Burst(draws: seq<Draw>) returns (n: nat)
      requires Valid() && |draws| >= cfg.initialBurst
      modifies this`dom, this`bodies, this`nextId, this`wordIndex, this`spawnedCount
      ensures Valid()
      ensures n == BurstSpawns(cfg.spawnLimit, old(spawnedCount), cfg.initialBurst)
      ensures spawnedCount == old(spawnedCount) + n
      ensures wordIndex == old(wordIndex) + n && nextId == old(nextId) + n
      ensures dom == old(dom) + Batch(cfg, viewW as real, old(nextId), old(wordIndex), draws[..n])
    {
      n := 0;
      while n < cfg.initialBurst
        invariant 0 <= n <= cfg.initialBurst
        invariant Valid()
        invariant spawnedCount == old(spawnedCount) + n
        invariant wordIndex == old(wordIndex) + n
        invariant nextId == old(nextId) + n
        invariant dom == old(dom) + Batch(cfg, viewW as real, old(nextId), old(wordIndex), draws[..n])
      {
        var ok := SpawnOne(draws[n]);
        if !ok {
          break;
        }
        BatchStep(cfg, viewW as real, old(nextId), old(wordIndex), draws, n);
        n := n + 1;
      }
    }

    /**
     * `startSpawning`: after the initial burst, either the limit is reached
     * (and, with a finite limit, the selection is scheduled) or the drip-feed
     * timer starts.
     */
    method StartSpawning(draws: seq<Draw>)
      requires Valid() && !spawnTimerActive && |draws| >= cfg.initialBurst
      modifies this`dom, this`bodies, this`nextId, this`wordIndex, this`spawnedCount,
               this`spawnTimerActive, this`selectionScheduled, this`scheduled
      ensures Valid()
      ensures var n := BurstSpawns(cfg.spawnLimit, old(spawnedCount), cfg.initialBurst);
        && spawnedCount == old(spawnedCount) + n
        && wordIndex == old(wordIndex) + n
        && nextId == old(nextId) + n
        && dom == old(dom) + Batch(cfg, viewW as real, old(nextId), old(wordIndex), draws[..n])
      ensures spawnTimerActive == CanSpawnMore(cfg.spawnLimit, spawnedCount)
      ensures !spawnTimerActive && cfg.spawnLimit.Some? ==>
        selectionScheduled
        && scheduled == old(scheduled) + (if old(selectionScheduled) then [] else [Task(FinalizeSelectionTask, SettleDelayMs)])
      ensures spawnTimerActive || cfg.spawnLimit.None? ==>
        selectionScheduled == old(selectionScheduled) && scheduled == old(scheduled)
    {
      var _ := Burst(draws);
      if !CanSpawnMore(cfg.spawnLimit, spawnedCount) {
        if cfg.spawnLimit.Some? {
          FinalizeSelectionDelayed();
        }
        return;
      }
      spawnTimerActive := true;
    }

    /** The start button: `startSpawning` runs only while no spawn timer is set. */
    method Start(draws: seq<Draw>)
      requires Valid() && |draws| >= cfg.initialBurst
      modifies this`dom, this`bodies, this`nextId, this`wordIndex, this`spawnedCount,
               this`spawnTimerActive, this`selectionScheduled, this`scheduled
      ensures Valid()
      ensures old(spawnTimerActive) ==> unchanged(this)
      ensures !old(spawnTimerActive) ==>
        var n := BurstSpawns(cfg.spawnLimit, old(spawnedCount), cfg.initialBurst);
        && spawnedCount == old(spawnedCount) + n
        && wordIndex == old(wordIndex) + n
        && nextId == old(nextId) + n
        && dom == old(dom) + Batch(cfg, viewW as real, old(nextId), old(wordIndex), draws[..n])
        && spawnTimerActive == CanSpawnMore(cfg.spawnLimit, spawnedCount)
      ensures !old(spawnTimerActive) && !spawnTimerActive && cfg.spawnLimit.Some? ==>
        selectionScheduled
        && scheduled == old(scheduled) + (if old(selectionScheduled) then [] else [Task(FinalizeSelectionTask, SettleDelayMs)])
      ensures !old(spawnTimerActive) && (spawnTimerActive || cfg.spawnLimit.None?) ==>
        selectionScheduled == old(selectionScheduled) && scheduled == old(scheduled)
    {
      if !spawnTimerActive {
        StartSpawning(draws);
      }
    }

    /** One deletion of the cap pass: the body with key `id` leaves the world and its entry leaves the map. */
    method DeleteEntry(id: nat)
      requires Paired() && |dom| > 0 && id == dom[0].id
      modifies this`dom, this`bodies
      ensures Paired()
      ensures dom == old(dom)[1..]
    {
      EvictFirst(dom, nextId);
      bodies := Others(bodies, id);
      dom := WithoutKey(dom, id);
    }

    /**
     * The cap pass of the drip feed: while the map holds more than `maxWords`
     * entries, the oldest keys are deleted together with their bodies.
     */
    method EvictOldest()
      requires Paired()
      modifies this`dom, this`bodies
      ensures Paired()
      ensures dom == Evicted(old(dom), cfg.maxWords)
    {
      var activeIds := Ids(dom);
      if |activeIds| > cfg.maxWords {
        var toRemove := activeIds[..|activeIds| - cfg.maxWords];
        var i := 0;
        while i < |toRemove|
          invariant 0 <= i <= |toRemove|
          invariant Paired()
          invariant dom == old(dom)[i..]
        {
          assert toRemove[i] == dom[0].id;
          DeleteEntry(toRemove[i]);
          i := i + 1;
        }
      }
    }

    /**
     * One drip-feed tick: a refused spawn clears the timer and, with a finite
     * limit, schedules the selection; a successful spawn is followed by the cap pass.
     */
    method IntervalTick(d: Draw)
      requires Valid() && spawnTimerActive
      modifies this`dom, this`bodies, this`nextId, this`wordIndex, this`spawnedCount,
               this`spawnTimerActive, this`selectionScheduled, this`scheduled
      ensures Valid()
      ensures !CanSpawnMore(cfg.spawnLimit, old(spawnedCount)) ==>
        && !spawnTimerActive
        && dom == old(dom) && spawnedCount == old(spawnedCount) && wordIndex == old(wordIndex)
        && nextId == old(nextId)
        && selectionScheduled
        && scheduled == old(scheduled) + (if old(selectionScheduled) then [] else [Task(FinalizeSelectionTask, SettleDelayMs)])
      ensures CanSpawnMore(cfg.spawnLimit, old(spawnedCount)) ==>
        && spawnTimerActive
        && spawnedCount == old(spawnedCount) + 1 && wordIndex == old(wordIndex) + 1
        && nextId == old(nextId) + 1
        && dom == Evicted(old(dom) + [Token(old(nextId), WordAt(cfg.words, old(wordIndex)), Place(cfg, viewW as real, d))],
                          cfg.maxWords)
        && selectionScheduled == old(selectionScheduled) && scheduled == old(scheduled)
    {
      var ok := SpawnOne(d);
      if !ok {
        spawnTimerActive := false;
        if cfg.spawnLimit.Some? {
          FinalizeSelectionDelayed();
        }
        return;
      }
      EvictOldest();
    }

    /**
     * `finalizeSelection`: chooses among the touching bodies, or else among all
     * word bodies, and arms the chosen one when it still has an element.
     */
    method FinalizeSelection(touching: seq<Placed>, pos: map<nat, Point>, sensorPos: Point)
      requires Valid() && selectionScheduled && arm == Unarmed
      requires forall i :: 0 <= i < |bodies| ==> bodies[i] in pos
      requires forall i :: 0 <= i < |touching| ==> touching[i].id in bodies
      requires forall i :: 0 <= i < |touching| ==> touching[i].pos == pos[touching[i].id]
      modifies this`arm
      ensures Valid()
      ensures var chosen := Choose(touching, Locate(bodies, pos), sensorPos);
        arm == if chosen.Some? && chosen.value.id in Ids(dom)
               then Blinking(chosen.value.id, BlinkPeriod(cfg.redTransitionMs))
               else Unarmed
      ensures arm.Blinking? <==> |bodies| > 0
    {
      var wordBodies := Locate(bodies, pos);
      var chosen := Choose(touching, wordBodies, sensorPos);
      if chosen.None? {
        return;
      }
      assert chosen.value.id in bodies by {
        if |touching| > 0 {
          var k: nat :| IsFirstNearest(touching, sensorPos, k) && chosen == Some(touching[k]);
        } else {
          var k: nat :| IsFirstNearest(wordBodies, sensorPos, k) && chosen == Some(wordBodies[k]);
        }
      }
      if chosen.value.id !in Ids(dom) {
        return;
      }
      arm := Blinking(chosen.value.id, BlinkPeriod(cfg.redTransitionMs));
    }

    /**
     * The click on the armed word: the first click stops the blink and
     * schedules the pop cue and the blast; the listener is then gone.
     */
    method Click()
      requires Valid()
      modifies this`arm, this`scheduled
      ensures Valid()
      ensures old(arm).Blinking? ==>
        && arm == Clicked(old(arm).id)
        && scheduled == old(scheduled) + [Task(PopCueTask, PreDelay(cfg.redTransitionMs, cfg.soundPopPreMs.GetOr(100))),
                                          Task(BlastTask, cfg.redTransitionMs)]
      ensures !old(arm).Blinking? ==> arm == old(arm) && scheduled == old(scheduled)
    {
      if !arm.Blinking? {
        return;
      }
      var dur := cfg.redTransitionMs;
      var lead := cfg.soundPopPreMs.GetOr(100);
      arm := Clicked(arm.id);
      scheduled := scheduled + [Task(PopCueTask, PreDelay(dur, lead)), Task(BlastTask, dur)];
    }

    /** `removeBoundaries`: deletes the ground and walls once; later calls do nothing. */
    method RemoveBoundaries()
      requires Valid()
      modifies this`walls, this`boundariesRemoved
      ensures Valid() && boundariesRemoved && walls.None?
      ensures old(boundariesRemoved) ==> unchanged(this)
    {
      if boundariesRemoved {
        return;
      }
      walls := None;
      boundariesRemoved := true;
    }

    /**
     * The debounced resize handler: new ground and walls only while they have
     * not been removed by the blast; the centre sensor is always recreated.
     */
    method Resize(w: nat, h: nat)
      requires Valid()
      modifies this`viewW, this`viewH, this`walls, this`sensor, this`nextId
      ensures Valid()
      ensures viewW == w && viewH == h
      ensures boundariesRemoved ==> walls.None? && sensor == old(nextId) && nextId == old(nextId) + 1
      ensures !boundariesRemoved ==>
        && walls == Some(Walls(old(nextId), old(nextId) + 1, old(nextId) + 2))
        && sensor == old(nextId) + 3 && nextId == old(nextId) + 4
    {
      viewW, viewH := w, h;
      if !boundariesRemoved {
        walls := Some(Walls(nextId, nextId + 1, nextId + 2));
        nextId := nextId + 3;
      }
      sensor := nextId;
      nextId := nextId + 1;
    }

    /** The recorded velocities are those the blast's impulse loop sets, with the configured strength and spin or their defaults. */
    ghost predicate Kicked(obs: map<nat, Observed>, draws: map<nat, KickDraw>)
      reads this`kicks, this`bodies, this`blast
    {
      && blast.Some?
      && (forall id :: id in bodies ==> id in obs && id in draws)
      && (forall id :: id in bodies ==> IsHypot(obs[id].dist, obs[id].pos, blast.value.centre))
      && kicks == Kicks(bodies, blast.value.chosen, blast.value.centre, obs, draws,
                        OrElse(cfg.blastStrength, 30.0), OrElse(cfg.blastSpin, 2.0))
    }

    /** The initial impulse of the blast: one kick per word body other than the chosen one. */
    method Impulse(obs: map<nat, Observed>, draws: map<nat, KickDraw>)
      requires Valid() && blast.Some?
      requires forall id :: id in bodies ==> id in obs && id in draws
      requires forall id :: id in bodies ==> IsHypot(obs[id].dist, obs[id].pos, blast.value.centre)
      modifies this`kicks
      ensures Valid() && Kicked(obs, draws)
    {
      kicks := KickAll(bodies, blast.value.chosen, blast.value.centre, obs, draws,
                       OrElse(cfg.blastStrength, 30.0), OrElse(cfg.blastSpin, 2.0));
    }

    /** The switches and callbacks of the first blast: everything but the impulse. */
    method Detonate(chosenPos: Point, now: real)
      requires Valid() && arm.Clicked? && !blastTriggered
      modifies this`blastTriggered, this`boundariesRemoved, this`walls, this`blast, this`windActive, this`scheduled
      ensures Valid()
      ensures blastTriggered && boundariesRemoved && walls.None? && windActive
      ensures blast == Some(BlastState(arm.id, chosenPos, bodies, now + OrElse(cfg.blastWindMs, 600.0)))
      ensures scheduled == old(scheduled) + [Task(RemoveChosenTask, ChosenFadeMs),
                                             Task(PianoTask, cfg.soundPianoDelayMs.GetOr(600)),
                                             Task(PostMessagesTask, cfg.postMessageDelayMs.GetOr(3000))]
    {
      RemoveBoundaries();
      blastTriggered := true;
      blast := Some(BlastState(arm.id, chosenPos, bodies, now + OrElse(cfg.blastWindMs, 600.0)));
      windActive := true;
      scheduled := scheduled + [Task(RemoveChosenTask, ChosenFadeMs),
                                Task(PianoTask, cfg.soundPianoDelayMs.GetOr(600)),
                                Task(PostMessagesTask, cfg.postMessageDelayMs.GetOr(3000))];
    }

    /**
     * `triggerBlast`: only the first call has an effect. It removes the
     * boundaries, kicks every other word body outward, starts the wind window
     * and schedules the chosen word's removal, the music and the messages.
     */
    method TriggerBlast(chosenPos: Point, obs: map<nat, Observed>, draws: map<nat, KickDraw>, now: real)
      requires Valid() && arm.Clicked?
      requires forall id :: id in bodies ==> id in obs && id in draws
      requires forall id :: id in bodies ==> IsHypot(obs[id].dist, obs[id].pos, chosenPos)
      requires arm.id in bodies ==> chosenPos == obs[arm.id].pos
      modifies this`blastTriggered, this`boundariesRemoved, this`walls, this`blast, this`kicks,
               this`windActive, this`scheduled
      ensures Valid()
      ensures old(blastTriggered) ==> unchanged(this)
      ensures !old(blastTriggered) ==>
        && blastTriggered && boundariesRemoved && walls.None?
        && blast == Some(BlastState(arm.id, chosenPos, bodies, now + OrElse(cfg.blastWindMs, 600.0)))
        && Kicked(obs, draws)
        && windActive
        && scheduled == old(scheduled) + [Task(RemoveChosenTask, ChosenFadeMs),
                                          Task(PianoTask, cfg.soundPianoDelayMs.GetOr(600)),
                                          Task(PostMessagesTask, cfg.postMessageDelayMs.GetOr(3000))]
    {
      if blastTriggered {
        return;
      }
      Detonate(chosenPos, now);
      Impulse(obs, draws);
    }

    /**
     * The wind handler on one engine tick: after the deadline it deregisters
     * and pushes nothing; before, it pushes every other captured word body
     * outward with the eased multiplier.
     */
    method WindTick(now: real, obs: map<nat, Observed>) returns (forces: seq<Force>)
      requires Valid()
      requires blast.Some? ==> forall id :: id in blast.value.words ==>
        id in obs && IsHypot(obs[id].dist, obs[id].pos, blast.value.centre)
      modifies this`windActive
      ensures Valid()
      ensures !old(windActive) ==> !windActive && forces == []
      ensures old(windActive) ==>
        var b := blast.value;
        var m := WindMultiplier(now, b.windEnd, OrElse(cfg.blastWindMs, 600.0));
        && (m.None? ==> !windActive && forces == [])
        && (m.Some? ==> (windActive &&
              forces == WindForces(b.words, b.chosen, b.centre, obs, OrElse(cfg.blastWindForce, 0.0008), m.value)))
    {
      forces := [];
      if !windActive {
        return;
      }
      var b := blast.value;
      var windMs := OrElse(cfg.blastWindMs, 600.0);
      var m := WindMultiplier(now, b.windEnd, windMs);
      if m.None? {
        windActive := false;
        return;
      }
      var windBase := OrElse(cfg.blastWindForce, 0.0008);
      forces := PushAll(b.words, b.chosen, b.centre, obs, windBase, m.value);
    }

    /** The chosen word's removal after its fade: its map entry and its body are deleted. */
    method RemoveChosen()
      requires Valid() && blast.Some?
      modifies this`dom, this`bodies
      ensures Valid()
      ensures dom == WithoutKey(old(dom), blast.value.chosen)
    {
      var chosen := blast.value.chosen;
      WithoutKeyDistinct(dom, chosen);
      WithoutKeyBounded(dom, chosen, nextId);
      WithoutPaired(dom, chosen);
      bodies := Others(bodies, chosen);
      dom := DeleteEntries(dom, chosen);
    }
  }

  /**
   * One initial word, a spawn limit of three and a cap of three: after the
   * burst and the drip feed run out, exactly three words are live and the
   * selection is scheduled once.
   */
  method ThreeWordRun(d0: Draw, d1: Draw, d2: Draw, d3: Draw) returns (live: nat, log: seq<Task>)
    ensures live == 3 && log == [Task(FinalizeSelectionTask, SettleDelayMs)]
  {
    var c := Desktop.(initialBurst := 1, spawnLimit := Some(3), maxWords := 3);
    var scene := new Scene(c, 800, 600);
    scene.StartSpawning([d0]);
    scene.IntervalTick(d1);
    scene.IntervalTick(d2);
    scene.IntervalTick(d3);
    live := |scene.dom|;
    log := scene.scheduled;
  }
}
