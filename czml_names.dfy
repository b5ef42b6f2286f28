/**
 The names the czml crate's types serialise under, and the serde rename
 rules that produce them from the Rust identifiers: `Clock`'s fields are
 renamed to camelCase, `ClockRange`'s and `ClockStep`'s variants to
 SCREAMING_SNAKE_CASE.
 */
module CzmlNames {
  import opened SerdeRename

  datatype ClockRange = Unbounded | Clamped | LoopStop

  datatype ClockStep = TickDependent | SystemClockMultiplier | SystemClock

  /** The Rust identifier of each variant, which `rename_all` turns into its name. */
  function RangeIdent(r: ClockRange): string
  {
    match r
    case Unbounded => "Unbounded"
    case Clamped => "Clamped"
    case LoopStop => "LoopStop"
  }

  function StepIdent(s: ClockStep): string
  {
    match s
    case TickDependent => "TickDependent"
    case SystemClockMultiplier => "SystemClockMultiplier"
    case SystemClock => "SystemClock"
  }

  /** The emitted names. */
  function RangeName(r: ClockRange): string
  {
    match r
    case Unbounded => "UNBOUNDED"
    case Clamped => "CLAMPED"
    case LoopStop => "LOOP_STOP"
  }

  function StepName(s: ClockStep): string
  {
    match s
    case TickDependent => "TICK_DEPENDENT"
    case SystemClockMultiplier => "SYSTEM_CLOCK_MULTIPLIER"
    case SystemClock => "SYSTEM_CLOCK"
  }

  /** Each emitted range name is serde's SCREAMING_SNAKE_CASE of the variant identifier. */
  lemma ClockRangeRenamed(r: ClockRange)
    ensures RangeName(r) == ScreamingSnake(RangeIdent(r))
  {
    match r
    case Unbounded => UnboundedRenamed();
    case Clamped => ClampedRenamed();
    case LoopStop => LoopStopRenamed();
  }

  /** Each emitted step name is serde's SCREAMING_SNAKE_CASE of the variant identifier. */
  lemma ClockStepRenamed(s: ClockStep)
    ensures StepName(s) == ScreamingSnake(StepIdent(s))
  {
    match s
    case TickDependent => TickDependentRenamed();
    case SystemClockMultiplier => SystemClockMultiplierRenamed();
    case SystemClock => SystemClockRenamed();
  }

  // One lemma per variant: its identifier is read as capitalised words.

  lemma UnboundedRenamed()
    ensures RangeName(Unbounded) == ScreamingSnake(RangeIdent(Unbounded))
  {
    ScreamingName("Unbounded", 'U', "nbounded", "NBOUNDED", "UNBOUNDED");
  }

  lemma ClampedRenamed()
    ensures RangeName(Clamped) == ScreamingSnake(RangeIdent(Clamped))
  {
    ScreamingName("Clamped", 'C', "lamped", "LAMPED", "CLAMPED");
  }

  lemma LoopStopRenamed()
    ensures RangeName(LoopStop) == ScreamingSnake(RangeIdent(LoopStop))
  {
    ScreamingName2("LoopStop", 'L', "oop", "OOP", 'S', "top", "TOP", "LOOP_STOP");
  }

  lemma TickDependentRenamed()
    ensures StepName(TickDependent) == ScreamingSnake(StepIdent(TickDependent))
  {
    ScreamingName2("TickDependent", 'T', "ick", "ICK", 'D', "ependent", "EPENDENT", "TICK_DEPENDENT");
  }

  lemma SystemClockRenamed()
    ensures StepName(SystemClock) == ScreamingSnake(StepIdent(SystemClock))
  {
    ScreamingName2("SystemClock", 'S', "ystem", "YSTEM", 'C', "lock", "LOCK", "SYSTEM_CLOCK");
  }

  lemma SystemClockMultiplierRenamed()
    ensures StepName(SystemClockMultiplier) == ScreamingSnake(StepIdent(SystemClockMultiplier))
  {
    SystemClockMultiplierWords();
    SystemClockMultiplierUpper();
    SystemClockMultiplierName();
    ScreamingName3("SystemClockMultiplier", 'S', "ystem", "YSTEM", 'C', "lock", "LOCK", 'M', "ultiplier", "ULTIPLIER",
                   "SYSTEM_CLOCK_MULTIPLIER");
  }

  // The longest identifier's word facts, kept apart so that each proof stays small.

  lemma SystemClockMultiplierWords()
    ensures "SystemClockMultiplier" == ['S'] + "ystem" + ['C'] + "lock" + ['M'] + "ultiplier"
    ensures IsLowerWord("ystem") && IsLowerWord("lock") && IsLowerWord("ultiplier")
  {
  }

  lemma SystemClockMultiplierUpper()
    ensures UpperAll("ystem") == "YSTEM" && UpperAll("lock") == "LOCK" && UpperAll("ultiplier") == "ULTIPLIER"
  {
  }

  lemma SystemClockMultiplierName()
    ensures "SYSTEM_CLOCK_MULTIPLIER" == ['S'] + "YSTEM" + "_" + ['C'] + "LOCK" + "_" + ['M'] + "ULTIPLIER"
  {
  }

  /** `Clock`'s Rust field names, in declaration order. */
  const ClockFieldIdents: seq<string> := ["interval", "current_time", "multiplier", "range", "step"]

  /** `Clock`'s serialised keys, in declaration order. */
  const ClockKeys: seq<string> := ["interval", "currentTime", "multiplier", "range", "step"]

  /** Each key is serde's camelCase of the Rust field name. */
  lemma ClockKeysRenamed()
    ensures |ClockKeys| == |ClockFieldIdents|
    ensures forall i :: 0 <= i < |ClockKeys| ==> ClockKeys[i] == CamelCase(ClockFieldIdents[i])
  {
    forall i | 0 <= i < |ClockKeys|
      ensures ClockKeys[i] == CamelCase(ClockFieldIdents[i])
    {
      ClockKeyRenamed(i);
    }
  }

  lemma ClockKeyRenamed(i: nat)
    requires i < |ClockKeys|
    ensures ClockKeys[i] == CamelCase(ClockFieldIdents[i])
  {
    if i == 1 {
      CurrentTimeRenamed();
    } else {
      OneWordKeyRenamed(ClockFieldIdents[i]);
    }
  }

  /** The one field with an underscore. */
  lemma CurrentTimeRenamed()
    ensures CamelCase("current_time") == "currentTime"
  {
    CamelCaseTwoWords("current", "time");
    assert "current" + "_" + "time" == "current_time";
    assert "current" + [ToUpper('t')] + "ime" == "currentTime";
  }

  /** The other fields are single lower-case words, which camelCase leaves alone. */
  lemma OneWordKeyRenamed(field: string)
    requires field in ["interval", "multiplier", "range", "step"]
    ensures CamelCase(field) == field
  {
    CamelCaseOneWord(field);
  }
}
