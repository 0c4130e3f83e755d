/** The two-slot control file that names the active generation of a database directory. */
module ControlFile {
  import opened Pages

  type Generation = string
  type FileName = string

  const COUNTER_LIMIT: nat := 0xffff_ffff_ffff_ffff

  datatype Slot = Slot(counter: nat, generation: Generation)

  /** A control file: none, or two slots of which the invalid ones read as none. */
  datatype Control = Absent | Slots(first: Option<Slot>, second: Option<Slot>, empty: bool)

  datatype Status = NoControl | Valid(slot: Slot, index: nat) | Invalid

  function Read(c: Control): Status {
    match c
    case Absent => NoControl
    case Slots(a, b, empty) =>
      if empty then NoControl
      else if a.Some? && b.Some? then (if a.value.counter >= b.value.counter then Valid(a.value, 0) else Valid(b.value, 1))
      else if a.Some? then Valid(a.value, 0)
      else if b.Some? then Valid(b.value, 1)
      else Invalid
  }

  /** Well-formed: an empty file holds no slots. */
  ghost predicate Proper(c: Control) {
    c.Slots? && c.empty ==> c.first.None? && c.second.None?
  }

  datatype Resolved = Active(generation: Generation) | Root | Corrupt

  /** Without a valid slot the files in the root directory count, if there are any or nothing was ever published. */
  function Resolve(c: Control, legacy: set<FileName>): Resolved {
    match Read(c)
    case Valid(slot, _) => Active(slot.generation)
    case NoControl => Root
    case Invalid => if legacy != {} then Root else Corrupt
  }

  function NextSlot(c: Control): nat {
    match Read(c)
    case Valid(_, index) => if index == 0 then 1 else 0
    case _ => 0
  }

  function NextCounter(c: Control): nat {
    match Read(c)
    case Valid(slot, _) => slot.counter + 1
    case _ => 1
  }

  function Put(c: Control, index: nat, slot: Option<Slot>): Control {
    var a, b := if c.Slots? then c.first else None, if c.Slots? then c.second else None;
    if index == 0 then Slots(slot, b, false) else Slots(a, slot, false)
  }

  /** The file after a complete publication. */
  function Published(c: Control, generation: Generation): Control {
    Put(c, NextSlot(c), Some(Slot(NextCounter(c), generation)))
  }

  /** What a crash during publication can leave: the old file, an empty new one, a torn slot, or the new file. */
  ghost predicate CrashLeaves(c: Control, generation: Generation, left: Control) {
    || left == c
    || (c.Absent? && left == Slots(None, None, true))
    || left == Put(c, NextSlot(c), None)
    || left == Published(c, generation)
  }

  /** The active generation survives as the old or the new one. */
  ghost predicate OldOrNew(c: Control, legacy: set<FileName>, generation: Generation, left: Control) {
    Resolve(left, legacy) == Resolve(c, legacy) || Resolve(left, legacy) == Active(generation)
  }

  /** Publication selects the new generation, with a larger counter than any slot held. */
  lemma {:induction false} PublishedIsSelected(c: Control, generation: Generation)
    requires Proper(c)
    ensures Read(Published(c, generation)) == Valid(Slot(NextCounter(c), generation), NextSlot(c))
    ensures c.Slots? && c.first.Some? ==> c.first.value.counter < NextCounter(c)
    ensures c.Slots? && c.second.Some? ==> c.second.value.counter < NextCounter(c)
  {
  }

  /**
   * Exactly when every crash during publication leaves the old or the new generation: there is
   * a valid slot to fall back on, or legacy files that stay authoritative.
   */
  lemma {:induction false} CrashSafety(c: Control, legacy: set<FileName>, generation: Generation)
    requires Proper(c) && !Resolve(c, legacy).Corrupt?
    ensures (forall left :: CrashLeaves(c, generation, left) ==> OldOrNew(c, legacy, generation, left)) <==> Read(c).Valid? || legacy != {}
  {
    PublishedIsSelected(c, generation);
    if Read(c).Valid? || legacy != {} {
      forall left | CrashLeaves(c, generation, left) ensures OldOrNew(c, legacy, generation, left) {
      }
    } else {
      TornFirstPublication(c, generation);
    }
  }

  /** A torn first publication without legacy files reads as corruption, not as the old state. */
  lemma {:induction false} TornFirstPublication(c: Control, generation: Generation)
    requires Proper(c) && Read(c).NoControl?
    ensures Resolve(c, {}) == Root
    ensures exists left :: CrashLeaves(c, generation, left) && Resolve(left, {}) == Corrupt && !OldOrNew(c, {}, generation, left)
  {
    var left := Put(c, NextSlot(c), None);
    assert CrashLeaves(c, generation, left) && Resolve(left, {}) == Corrupt;
  }

  // ---------- the directory ----------

  datatype Outcome = Done | Refused | Busy | Exhausted

  datatype DataDir = Opened(generation: Option<Generation>) | Failed

  class Directory {
    var control: Control
    var legacy: set<FileName>
    var generations: set<Generation>

    ghost predicate Ok()
      reads this
    {
      Proper(control)
    }

    /** Publishes a generation in the slot that is not selected. */
    method WriteControlState(generation: Generation, expected: Option<Option<Generation>>) returns (r: Outcome)
      requires Ok()
      modifies this`control
      ensures Ok()
      ensures r.Done? ==> control == Published(old(control), generation) && Resolve(control, legacy) == Active(generation)
      ensures r.Refused? ==> Resolve(old(control), legacy) == Corrupt
      ensures !r.Done? ==> Read(control) == Read(old(control))
      ensures r.Done? && Read(old(control)).Valid? && Read(control).Valid? ==> Read(control).slot.counter > Read(old(control)).slot.counter
    {
      if control.Absent? {
        control := Slots(None, None, true);
      }
      var current := Read(control);
      if current.Invalid? && legacy == {} {
        return Refused;
      }
      var generationNow := if current.Valid? then Some(current.slot.generation) else None;
      if expected.Some? && generationNow != expected.value {
        return Busy;
      }
      if current.Valid? && current.slot.counter >= COUNTER_LIMIT {
        return Exhausted;
      }
      PublishedIsSelected(control, generation);
      control := Published(control, generation);
      return Done;
    }

    /** Opens the active data directory; legacy files go before a published generation is used. */
    method ResolveActiveDataDir(removable: set<FileName>) returns (r: DataDir)
      requires Ok()
      modifies this`legacy
      ensures legacy <= old(legacy)
      ensures Resolve(control, legacy) == Resolve(control, old(legacy))
      ensures r.Opened? && r.generation.Some? ==> Resolve(control, legacy) == Active(r.generation.value) && legacy == {} && r.generation.value in generations
      ensures r.Opened? && r.generation.None? ==> Resolve(control, legacy) == Root && legacy == old(legacy)
    {
      var resolved := Resolve(control, legacy);
      if resolved.Corrupt? {
        return Failed;
      }
      if resolved.Root? {
        return Opened(None);
      }
      if resolved.generation !in generations {
        return Failed;
      }
      while legacy != {}
        invariant legacy <= old(legacy)
        decreases |legacy|
      {
        var file :| file in legacy;
        if file !in removable {
          return Failed;
        }
        legacy := legacy - {file};
      }
      return Opened(Some(resolved.generation));
    }
  }
}
