/** The forward compiler (`BioCompiler`): find the subroutine for a requested
    (organ, species) and lower it into a line-by-line lab protocol. The record
    library is the store loaded once at start-up and is passed in as a sequence;
    the `generated:` timestamp and the rendering of numbers are parameters. */
module ExperimentGen {
  import opened Optional
  import opened Text
  import opened Schema
  import opened Seqs

  // ---------------------------------------------------------------------------
  // find_subroutine
  // ---------------------------------------------------------------------------

  /** The lookup predicate: organ and species both equal after lower-casing. */
  predicate TargetMatches(r: Record, organ: string, species: string) {
    Lower(r.target.organ) == Lower(organ) && Lower(r.target.species) == Lower(species)
  }

  /** The position of the first record of `lib` that matches, if any. */
  function FirstMatchIndex(lib: seq<Record>, organ: string, species: string): (k: Option<nat>)
    ensures k.None? <==> forall i | 0 <= i < |lib| :: !TargetMatches(lib[i], organ, species)
    ensures k.Some? ==> k.value < |lib| && TargetMatches(lib[k.value], organ, species)
    ensures k.Some? ==> forall j | 0 <= j < k.value :: !TargetMatches(lib[j], organ, species)
    decreases |lib|
  {
    if |lib| == 0 then None
    else if TargetMatches(lib[0], organ, species) then Some(0)
    else
      match FirstMatchIndex(lib[1..], organ, species)
      case None => None
      case Some(k) => Some(k + 1)
  }

  /** The record `find_subroutine` returns: the first match in library order. */
  function FirstMatch(lib: seq<Record>, organ: string, species: string): Option<Record>
  {
    match FirstMatchIndex(lib, organ, species)
    case None => None
    case Some(k) => Some(lib[k])
  }

  /** Linear scan with early return; a missing pair yields `None`, never an error. */
  method FindSubroutine(library: seq<Record>, organ: string, species: string)
    returns (found: Option<Record>)
    ensures found == FirstMatch(library, organ, species)
    ensures found.None? <==> forall i | 0 <= i < |library| :: !TargetMatches(library[i], organ, species)
    ensures found.Some? ==> found.value in library
  {
    for i := 0 to |library|
      invariant forall j | 0 <= j < i :: !TargetMatches(library[j], organ, species)
    {
      var sub := library[i];
      if Lower(sub.target.organ) == Lower(organ) && Lower(sub.target.species) == Lower(species) {
        return Some(sub);
      }
    }
    return None;
  }

  /** The lookup sees its arguments only through their lower-cased forms. */
  lemma {:induction false} FirstMatchCaseInsensitive(
    lib: seq<Record>, organ1: string, species1: string, organ2: string, species2: string)
    requires Lower(organ1) == Lower(organ2) && Lower(species1) == Lower(species2)
    ensures FirstMatchIndex(lib, organ1, species1) == FirstMatchIndex(lib, organ2, species2)
    ensures FirstMatch(lib, organ1, species1) == FirstMatch(lib, organ2, species2)
    decreases |lib|
  {
    if |lib| > 0 {
      FirstMatchCaseInsensitive(lib[1..], organ1, species1, organ2, species2);
    }
  }

  /** ("EYE", "xenopus laevis") and ("eye", "Xenopus laevis") find the same record. */
  lemma FirstMatchExample(lib: seq<Record>)
    ensures FirstMatch(lib, "EYE", "xenopus laevis") == FirstMatch(lib, "eye", "Xenopus laevis")
  {
    assert Lower("EYE") == Lower("eye");
    assert Lower("xenopus laevis") == Lower("Xenopus laevis");
    FirstMatchCaseInsensitive(lib, "EYE", "xenopus laevis", "eye", "Xenopus laevis");
  }

  /** Asking for a stored record's own target, in any case, finds a record with that
      target (the first one, which is that record itself unless an earlier record
      shares its organ and species). */
  lemma FirstMatchOwnTarget(lib: seq<Record>, i: nat, organ: string, species: string)
    requires i < |lib|
    requires Lower(organ) == Lower(lib[i].target.organ)
    requires Lower(species) == Lower(lib[i].target.species)
    ensures FirstMatch(lib, organ, species).Some?
    ensures Lower(FirstMatch(lib, organ, species).value.target.organ) == Lower(organ)
    ensures Lower(FirstMatch(lib, organ, species).value.target.species) == Lower(species)
    ensures FirstMatchIndex(lib, organ, species).value <= i
  {
    assert TargetMatches(lib[i], organ, species);
  }

  /** No record repeats, up to case, the (organ, species) of an earlier record. */
  predicate UniqueTargets(lib: seq<Record>) {
    forall i, j | 0 <= i < j < |lib| :: !TargetMatches(lib[j], lib[i].target.organ, lib[i].target.species)
  }

  /** In a store without duplicate targets, asking for a record's own target returns
      that very record. */
  lemma FirstMatchOwnRecord(lib: seq<Record>, i: nat, organ: string, species: string)
    requires UniqueTargets(lib) && i < |lib|
    requires Lower(organ) == Lower(lib[i].target.organ)
    requires Lower(species) == Lower(lib[i].target.species)
    ensures FirstMatch(lib, organ, species) == Some(lib[i])
  {
    FirstMatchOwnTarget(lib, i, organ, species);
    var k := FirstMatchIndex(lib, organ, species).value;
    if k < i {
      assert TargetMatches(lib[i], lib[k].target.organ, lib[k].target.species);
      assert false;
    }
  }

  // ---------------------------------------------------------------------------
  // generate_protocol
  // ---------------------------------------------------------------------------

  function HeaderLines(t: Target, generated: string): seq<string> {
    [ "BIOELECTRIC COMPILER PROTOCOL v1.0",
      "generated: " + generated,
      "TARGET: " + Upper(t.action) + " " + Upper(t.organ) + " in " + t.species,
      Repeat('-', 50) ]
  }

  /** PHASE 1; a missing `notes` key renders as the empty string. */
  function TargetStateLines(t: Target, s: BioState, show: real -> string): seq<string> {
    [ "\n[PHASE 1: TARGET STATE DEFINITION]",
      "To achieve " + t.organ + " morphogenesis, the tissue must enter the following state:",
      "  > Spatial Domain: " + s.spatialDomain,
      "  > Target Vmem:    " + ShowRange(s.vmemRange, show) + " mV",
      "  > Duration:       " + show(s.durationHours) + " hours",
      "  > Logic Note:     " + s.notes.GetOr("") ]
  }

  // Long literal lines here and in SafetyLines are written as a short head plus
  // the rest, so that their leading characters are visible to the proofs.
  const HardwareHeading: seq<string> :=
    [ "\n[PHASE 2: HARDWARE SELECTION]",
      "Select ONE of the following " + "drivers to instantiate the state:" ]

  /** OPTION block number `i`; a missing `dosage` key renders as "See paper". */
  function DriverBlock(i: nat, d: Driver): seq<string> {
    [ "\n  OPTION " + NatToString(i) + ": " + d.name + " (" + d.kind + ")",
      "    - Mechanism: " + d.mechanism,
      "    - Dosage:    " + d.dosage.GetOr("See paper") ]
  }

  /** The OPTION blocks of `ds`, numbered from 1 in driver order. */
  function DriverBlocks(ds: seq<Driver>): (r: seq<string>)
    ensures |r| == 3 * |ds|
    decreases |ds|
  {
    if |ds| == 0 then []
    else DriverBlocks(ds[..|ds| - 1]) + DriverBlock(|ds|, ds[|ds| - 1])
  }

  /** The record has `metadata` and its `metadata` has `references`. */
  predicate HasReferences(sub: Record) {
    sub.metadata.Some? && sub.metadata.value.references.Some?
  }

  const SourcesPrefix: string := "\n  Sources: "

  function SourcesLines(sub: Record): seq<string> {
    if HasReferences(sub) then [SourcesPrefix + Join(sub.metadata.value.references.value, ", ")]
    else []
  }

  const SafetyLines: seq<string> :=
    [ "\n[PHASE 3: SAFETY & VERIFICATION]",
      "(!) WARNING: " + "High voltage/current can cause irreversible damage.",
      "(!) VERIFY:  " + "Use voltage-reporting dyes to confirm Vmem change before 24h." ]

  /** The `protocol` list that `generate_protocol` builds, before it is joined. */
  function ProtocolLines(sub: Record, generated: string, show: real -> string): seq<string> {
    HeaderLines(sub.target, generated)
      + TargetStateLines(sub.target, sub.state, show)
      + HardwareHeading
      + DriverBlocks(sub.drivers)
      + SourcesLines(sub)
      + SafetyLines
  }

  /** Appending OPTION block `i + 1` to the lines of the first `i` blocks gives the
      lines of the first `i + 1` blocks. */
  lemma DriverBlocksStep(ds: seq<Driver>, i: nat, before: seq<string>, done: seq<string>, after: seq<string>)
    requires i < |ds|
    requires done == before + DriverBlocks(ds[..i])
    requires after == done + DriverBlock(i + 1, ds[i])
    ensures after == before + DriverBlocks(ds[..i + 1])
  {
    assert ds[..i + 1][..i] == ds[..i];
  }

  /** Builds the protocol by successive appends, one OPTION block per driver, and
      joins the lines with newlines. */
  method GenerateProtocol(subroutine: Record, generated: string, show: real -> string)
    returns (text: string)
    ensures text == Join(ProtocolLines(subroutine, generated, show), "\n")
  {
    var target := subroutine.target;
    var state := subroutine.state;
    var drivers := subroutine.drivers;

    var protocol: seq<string> := [];
    protocol := protocol + ["BIOELECTRIC COMPILER PROTOCOL v1.0"];
    protocol := protocol + ["generated: " + generated];
    protocol := protocol + ["TARGET: " + Upper(target.action) + " " + Upper(target.organ) + " in " + target.species];
    protocol := protocol + [Repeat('-', 50)];
    assert protocol == HeaderLines(target, generated);

    protocol := protocol + ["\n[PHASE 1: TARGET STATE DEFINITION]"];
    protocol := protocol + ["To achieve " + target.organ + " morphogenesis, the tissue must enter the following state:"];
    protocol := protocol + ["  > Spatial Domain: " + state.spatialDomain];
    protocol := protocol + ["  > Target Vmem:    " + ShowRange(state.vmemRange, show) + " mV"];
    protocol := protocol + ["  > Duration:       " + show(state.durationHours) + " hours"];
    protocol := protocol + ["  > Logic Note:     " + state.notes.GetOr("")];
    assert protocol == HeaderLines(target, generated) + TargetStateLines(target, state, show);

    protocol := protocol + ["\n[PHASE 2: HARDWARE SELECTION]"];
    protocol := protocol + ["Select ONE of the following " + "drivers to instantiate the state:"];
    ghost var before := protocol;
    assert before == HeaderLines(target, generated) + TargetStateLines(target, state, show) + HardwareHeading;

    for i := 0 to |drivers|
      invariant protocol == before + DriverBlocks(drivers[..i])
    {
      var driver := drivers[i];
      ghost var done := protocol;
      protocol := protocol + ["\n  OPTION " + NatToString(i + 1) + ": " + driver.name + " (" + driver.kind + ")"];
      protocol := protocol + ["    - Mechanism: " + driver.mechanism];
      protocol := protocol + ["    - Dosage:    " + driver.dosage.GetOr("See paper")];
      DriverBlocksStep(drivers, i, before, done, protocol);
    }
    assert drivers[..|drivers|] == drivers;
    assert protocol == before + DriverBlocks(drivers);

    if subroutine.metadata.Some? && subroutine.metadata.value.references.Some? {
      protocol := protocol + ["\n  Sources: " + Join(subroutine.metadata.value.references.value, ", ")];
    }
    assert protocol == before + DriverBlocks(drivers) + SourcesLines(subroutine);

    protocol := protocol + ["\n[PHASE 3: SAFETY & VERIFICATION]"];
    protocol := protocol + ["(!) WARNING: " + "High voltage/current can cause irreversible damage."];
    protocol := protocol + ["(!) VERIFY:  " + "Use voltage-reporting dyes to confirm Vmem change before 24h."];

    assert protocol == ProtocolLines(subroutine, generated, show);
    text := Join(protocol, "\n");
  }

  // ---------------------------------------------------------------------------
  // Properties of the protocol
  // ---------------------------------------------------------------------------

  /** Block `k` (0-based) of the driver list is the OPTION block numbered `k + 1`
      for driver `k`, at lines `3k .. 3k + 2`. */
  lemma {:induction false} DriverBlockAt(ds: seq<Driver>, k: nat)
    requires k < |ds|
    ensures DriverBlocks(ds)[3 * k .. 3 * k + 3] == DriverBlock(k + 1, ds[k])
    decreases |ds|
  {
    var front := ds[..|ds| - 1];
    if k < |ds| - 1 {
      DriverBlockAt(front, k);
      assert front[k] == ds[k];
      assert DriverBlocks(ds)[3 * k .. 3 * k + 3] == DriverBlocks(front)[3 * k .. 3 * k + 3];
    } else {
      assert DriverBlocks(ds)[3 * k .. 3 * k + 3] == DriverBlock(|ds|, ds[|ds| - 1]);
    }
  }

  /** The protocol is header (4 lines), PHASE 1 (6), PHASE 2 (2 + 3n), the optional
      Sources line, PHASE 3 (3): 15 + 3n lines, plus one with references. */
  lemma ProtocolLength(sub: Record, generated: string, show: real -> string)
    ensures |ProtocolLines(sub, generated, show)|
         == 15 + 3 * |sub.drivers| + (if HasReferences(sub) then 1 else 0)
  {
  }

  /** The header, PHASE 1 and PHASE 2 heading lines, including the empty-string
      default for `notes`. */
  lemma ProtocolOpening(sub: Record, generated: string, show: real -> string)
    ensures var p := ProtocolLines(sub, generated, show);
      && p[0] == "BIOELECTRIC COMPILER PROTOCOL v1.0"
      && p[1] == "generated: " + generated
      && p[2] == "TARGET: " + Upper(sub.target.action) + " " + Upper(sub.target.organ) + " in " + sub.target.species
      && p[3] == Repeat('-', 50)
      && p[4] == "\n[PHASE 1: TARGET STATE DEFINITION]"
      && p[5] == "To achieve " + sub.target.organ + " morphogenesis, the tissue must enter the following state:"
      && p[6] == "  > Spatial Domain: " + sub.state.spatialDomain
      && p[7] == "  > Target Vmem:    " + ShowRange(sub.state.vmemRange, show) + " mV"
      && p[8] == "  > Duration:       " + show(sub.state.durationHours) + " hours"
      && p[9] == "  > Logic Note:     " + (if sub.state.notes.Some? then sub.state.notes.value else "")
      && p[10] == "\n[PHASE 2: HARDWARE SELECTION]"
      && p[11] == "Select ONE of the following " + "drivers to instantiate the state:"
  {
  }

  /** The OPTION blocks occupy lines 12 .. 12 + 3n of the protocol. */
  lemma ProtocolDriverSection(sub: Record, generated: string, show: real -> string)
    ensures var p, n := ProtocolLines(sub, generated, show), |sub.drivers|;
      12 + 3 * n <= |p| && p[12 .. 12 + 3 * n] == DriverBlocks(sub.drivers)
  {
    var pre := HeaderLines(sub.target, generated) + TargetStateLines(sub.target, sub.state, show) + HardwareHeading;
    var blocks := DriverBlocks(sub.drivers);
    assert ProtocolLines(sub, generated, show) == pre + blocks + (SourcesLines(sub) + SafetyLines);
    SliceOfMiddle(pre, blocks, SourcesLines(sub) + SafetyLines, 0, |blocks|);
  }

  /** Driver `k` (0-based) appears as OPTION `k + 1` at lines 12 + 3k .. 14 + 3k, with
      "See paper" for a missing dosage. */
  lemma ProtocolOption(sub: Record, generated: string, show: real -> string, k: nat)
    requires k < |sub.drivers|
    ensures var p := ProtocolLines(sub, generated, show); var d := sub.drivers[k];
      && p[12 + 3 * k] == "\n  OPTION " + NatToString(k + 1) + ": " + d.name + " (" + d.kind + ")"
      && p[13 + 3 * k] == "    - Mechanism: " + d.mechanism
      && p[14 + 3 * k] == "    - Dosage:    " + (if d.dosage.Some? then d.dosage.value else "See paper")
  {
    ProtocolDriverSection(sub, generated, show);
    DriverBlockAt(sub.drivers, k);
    var p, n := ProtocolLines(sub, generated, show), |sub.drivers|;
    var blocks := p[12 .. 12 + 3 * n];
    var b := blocks[3 * k .. 3 * k + 3];
    DriverBlockLines(k + 1, sub.drivers[k]);
    assert p[12 + 3 * k] == b[0] && p[13 + 3 * k] == b[1] && p[14 + 3 * k] == b[2];
  }

  /** The three lines of one OPTION block. */
  lemma DriverBlockLines(i: nat, d: Driver)
    ensures var b := DriverBlock(i, d);
      && b[0] == "\n  OPTION " + NatToString(i) + ": " + d.name + " (" + d.kind + ")"
      && b[1] == "    - Mechanism: " + d.mechanism
      && b[2] == "    - Dosage:    " + (if d.dosage.Some? then d.dosage.value else "See paper")
  {
  }

  /** The protocol ends with the Sources line (when the record has references) and
      then the three PHASE 3 lines: Sources follows every OPTION block and precedes
      PHASE 3. */
  lemma ProtocolClosing(sub: Record, generated: string, show: real -> string)
    ensures var p := ProtocolLines(sub, generated, show); var n := |sub.drivers|;
      && p[|p| - 3..] == SafetyLines
      && (HasReferences(sub) ==>
            p[12 + 3 * n] == SourcesPrefix + Join(sub.metadata.value.references.value, ", "))
  {
  }

  predicate StartsWith(line: string, prefix: string) {
    |prefix| <= |line| && line[..|prefix|] == prefix
  }

  /** A line that differs from `prefix` at some position does not start with it. */
  lemma DiffersAt(line: string, prefix: string, j: nat)
    requires j < |line| && j < |prefix| && line[j] != prefix[j]
    ensures !StartsWith(line, prefix)
  {
  }

  /** No line of `ls` starts with the Sources prefix. */
  predicate NoSourcesLine(ls: seq<string>) {
    forall k | 0 <= k < |ls| :: !StartsWith(ls[k], SourcesPrefix)
  }

  lemma {:induction false} DriverBlocksNoSources(ds: seq<Driver>)
    ensures NoSourcesLine(DriverBlocks(ds))
    decreases |ds|
  {
    if |ds| > 0 {
      DriverBlocksNoSources(ds[..|ds| - 1]);
      var b := DriverBlock(|ds|, ds[|ds| - 1]);
      DiffersAt(b[0], SourcesPrefix, 3);
      DiffersAt(b[1], SourcesPrefix, 0);
      DiffersAt(b[2], SourcesPrefix, 0);
      assert NoSourcesLine(b);
    }
  }

  lemma NoSourcesLineConcat(a: seq<string>, b: seq<string>)
    requires NoSourcesLine(a) && NoSourcesLine(b)
    ensures NoSourcesLine(a + b)
  {
    forall k | 0 <= k < |a + b| ensures !StartsWith((a + b)[k], SourcesPrefix) {
      if k < |a| { assert (a + b)[k] == a[k]; } else { assert (a + b)[k] == b[k - |a|]; }
    }
  }

  /** Every line before PHASE 2's OPTION blocks. */
  lemma OpeningNoSources(sub: Record, generated: string, show: real -> string)
    ensures NoSourcesLine(HeaderLines(sub.target, generated)
                          + TargetStateLines(sub.target, sub.state, show) + HardwareHeading)
  {
    var h := HeaderLines(sub.target, generated);
    var t := TargetStateLines(sub.target, sub.state, show);
    forall k | 0 <= k < 4 ensures !StartsWith(h[k], SourcesPrefix) {
      DiffersAt(h[k], SourcesPrefix, 0);
    }
    DiffersAt(t[0], SourcesPrefix, 1);
    forall k | 1 <= k < 6 ensures !StartsWith(t[k], SourcesPrefix) {
      DiffersAt(t[k], SourcesPrefix, 0);
    }
    DiffersAt(HardwareHeading[0], SourcesPrefix, 1);
    DiffersAt(HardwareHeading[1], SourcesPrefix, 0);
    NoSourcesLineConcat(h, t);
    NoSourcesLineConcat(h + t, HardwareHeading);
  }

  lemma SafetyNoSources()
    ensures NoSourcesLine(SafetyLines)
  {
    DiffersAt(SafetyLines[0], SourcesPrefix, 1);
    DiffersAt(SafetyLines[1], SourcesPrefix, 0);
    DiffersAt(SafetyLines[2], SourcesPrefix, 0);
  }

  /** A line starting with "\n  Sources: " occurs in the protocol iff the record has
      `metadata` with `references`. */
  lemma ProtocolSourcesIff(sub: Record, generated: string, show: real -> string)
    ensures (exists k | 0 <= k < |ProtocolLines(sub, generated, show)| ::
               StartsWith(ProtocolLines(sub, generated, show)[k], SourcesPrefix))
        <==> HasReferences(sub)
  {
    var p := ProtocolLines(sub, generated, show);
    var opening := HeaderLines(sub.target, generated)
                   + TargetStateLines(sub.target, sub.state, show) + HardwareHeading;
    var before := opening + DriverBlocks(sub.drivers);
    assert p == before + SourcesLines(sub) + SafetyLines;
    if HasReferences(sub) {
      assert p[|before|] == SourcesLines(sub)[0];
      assert StartsWith(p[|before|], SourcesPrefix);
    } else {
      OpeningNoSources(sub, generated, show);
      DriverBlocksNoSources(sub.drivers);
      SafetyNoSources();
      NoSourcesLineConcat(opening, DriverBlocks(sub.drivers));
      NoSourcesLineConcat(before, SafetyLines);
      assert p == before + SafetyLines;
    }
  }

  /** Two calls on the same record differ at most in the `generated:` line. */
  lemma ProtocolTimestampOnly(sub: Record, generated1: string, generated2: string, show: real -> string)
    ensures |ProtocolLines(sub, generated1, show)| == |ProtocolLines(sub, generated2, show)|
    ensures forall k | 0 <= k < |ProtocolLines(sub, generated1, show)| && k != 1 ::
              ProtocolLines(sub, generated1, show)[k] == ProtocolLines(sub, generated2, show)[k]
  {
    var p1, p2 := ProtocolLines(sub, generated1, show), ProtocolLines(sub, generated2, show);
    var h1, h2 := HeaderLines(sub.target, generated1), HeaderLines(sub.target, generated2);
    var rest := ProtocolLines(sub, generated1, show)[4..];
    assert p1 == h1 + rest;
    assert p2 == h2 + rest;
  }

  /** For a record of a well-formed store the protocol offers at least one option,
      OPTION 1 at line 12. */
  lemma ProtocolHasOption(lib: seq<Record>, sub: Record, generated: string, show: real -> string)
    requires WellFormed(lib) && sub in lib
    ensures |ProtocolLines(sub, generated, show)| >= 18
    ensures StartsWith(ProtocolLines(sub, generated, show)[12], "\n  OPTION 1: ")
  {
    ProtocolOption(sub, generated, show, 0);
    assert NatToString(1) == "1";
    var p := ProtocolLines(sub, generated, show);
    var d := sub.drivers[0];
    assert p[12] == "\n  OPTION 1: " + (d.name + " (" + d.kind + ")");
  }
}
