/**
 * The tunables of the falling-words scene (the CONFIG object of script.js),
 * resolved once at start-up. Only the entries the modelled rules read are kept,
 * together with the drip-feed period `spawnEveryMs`, which the phone overrides set.
 */
module Settings {
  import opened Optional

  datatype Config = Config(
    words: seq<string>,            // texts cycled by the spawner
    initialBurst: nat,             // words dropped at start
    spawnEveryMs: nat,             // period of the drip feed
    spawnLimit: Option<nat>,       // total words to spawn; None means unlimited
    maxWords: nat,                 // cap on live words, enforced after interval spawns
    spawnHorizontalSpread: real,   // fraction of the width used for the random x offset
    spawnHeightMin: real,          // minimal pixels above the top edge
    spawnHeightRand: real,         // extra random pixels above the top edge
    minWordWidth: real,
    minWordHeight: real,
    redTransitionMs: int,          // duration of the turn-red transition
    postMessageDelayMs: Option<int>,
    postMessageStaggerMs: Option<int>,
    postMessages: seq<string>,
    soundPianoDelayMs: Option<int>,
    soundPopPreMs: Option<int>,    // lead of the pop cue before the blast
    blastStrength: real,
    blastSpin: real,
    blastWindMs: real,
    blastWindForce: real,
    rotationMinDeg: real,
    rotationMaxDeg: real)

  /**
   * A non-empty word list, which `nextWord` indexes modulo its length, and a
   * non-negative wind window, which the model's `WindMultiplier` divides by
   * (the script itself tolerates a negative one: its first wind tick is already
   * past the deadline).
   */
  predicate WellFormed(c: Config) {
    |c.words| > 0 && c.blastWindMs >= 0.0
  }

  /** JavaScript's `x || d` on a number: zero is falsy. */
  function OrElse(x: real, d: real): real {
    if x == 0.0 then d else x
  }

  /** The desktop configuration, as written in script.js. */
  const Desktop := Config(
    words := ["baby", "love", "mine", "darling"],
    initialBurst := 1,
    spawnEveryMs := 150,
    spawnLimit := Some(130),
    maxWords := 130,
    spawnHorizontalSpread := 1.0,
    spawnHeightMin := 200.0,
    spawnHeightRand := 300.0,
    minWordWidth := 0.0,
    minWordHeight := 0.0,
    redTransitionMs := 1000,
    postMessageDelayMs := Some(10000),
    postMessageStaggerMs := Some(3000),
    postMessages := [
      "No words are enough for you \U{2764}\U{FE0F}",
      "You're my favorite person in this universe \U{1F30C}",
      "Happy Birthday, my love \U{1F4AB}"
    ],
    soundPianoDelayMs := Some(600),
    soundPopPreMs := Some(300),
    blastStrength := 40.0,
    blastSpin := 1.5,
    blastWindMs := 600.0,
    blastWindForce := 0.0009,
    rotationMinDeg := -60.0,
    rotationMaxDeg := 60.0)

  /** The phone-sized configuration: the desktop one with the mobile overrides assigned over it. */
  function WithMobileOverrides(c: Config): (m: Config)
    ensures m.words == c.words && m.initialBurst == c.initialBurst
    ensures m.spawnLimit == Some(120) && m.maxWords == 120
    ensures WellFormed(c) ==> WellFormed(m)
    ensures m.redTransitionMs == c.redTransitionMs && m.soundPopPreMs == c.soundPopPreMs
    ensures m.soundPianoDelayMs == c.soundPianoDelayMs && m.postMessages == c.postMessages
    ensures m.blastWindForce == c.blastWindForce
    ensures m.rotationMinDeg == c.rotationMinDeg && m.rotationMaxDeg == c.rotationMaxDeg
    ensures m.spawnHorizontalSpread == c.spawnHorizontalSpread
    ensures m.spawnHeightMin == c.spawnHeightMin && m.spawnHeightRand == c.spawnHeightRand
    ensures m.minWordWidth == c.minWordWidth && m.minWordHeight == c.minWordHeight
  {
    c.(spawnEveryMs := 300,
       postMessageDelayMs := Some(8000),
       postMessageStaggerMs := Some(2200),
       spawnLimit := Some(120),
       maxWords := 120,
       blastStrength := 15.0,
       blastSpin := 1.2,
       blastWindMs := 300.0)
  }
}
