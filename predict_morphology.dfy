/** The inverse predictor (`BioDecoder`): from an observed membrane voltage, a
    tissue location and an optional species, find every subroutine of the record
    library whose target state is consistent with the observation, and render the
    matches as a report. */
module PredictMorphology {
  import opened Optional
  import opened Text
  import opened Schema
  import opened Seqs

  // ---------------------------------------------------------------------------
  // predict
  // ---------------------------------------------------------------------------

  /** The species check: skipped when no species, or the empty string, is given;
      otherwise equality after lower-casing. */
  predicate SpeciesMatches(r: Record, species: Option<string>) {
    species.None? || species.value == "" || Lower(r.target.species) == Lower(species.value)
  }

  /** The fuzzy domain check: after lower-casing, either string contains the other. */
  predicate DomainMatches(query: string, domain: string) {
    Contains(Lower(domain), Lower(query)) || Contains(Lower(query), Lower(domain))
  }

  /** The voltage check: inside the sorted target range, both ends included. */
  predicate VoltageInRange(vmem: real, range: VmemRange) {
    var (lo, hi) := SortedBounds(range);
    lo <= vmem <= hi
  }

  /** A record passes when it survives all three checks. */
  predicate Passes(r: Record, vmem: real, domain: string, species: Option<string>) {
    SpeciesMatches(r, species)
    && DomainMatches(domain, r.state.spatialDomain)
    && VoltageInRange(vmem, r.state.vmemRange)
  }

  /** The three checks for one query, as a test on records. */
  function Keep(vmem: real, domain: string, species: Option<string>): Record -> bool {
    r => Passes(r, vmem, domain, species)
  }

  /** The records of `lib` that pass, in library order. */
  function Predicted(lib: seq<Record>, vmem: real, domain: string, species: Option<string>)
    : seq<Record>
  {
    Filter(lib, Keep(vmem, domain, species))
  }

  /** Filters the library; a record failing any check is skipped. */
  method Predict(library: seq<Record>, vmem: real, spatialDomain: string, species: Option<string>)
    returns (matches: seq<Record>)
    ensures matches == Predicted(library, vmem, spatialDomain, species)
  {
    ghost var keep := Keep(vmem, spatialDomain, species);
    matches := [];
    for i := 0 to |library|
      invariant matches == Filter(library[..i], keep)
    {
      assert library[..i + 1][..i] == library[..i];
      var sub := library[i];
      var target := sub.target;
      if species.Some? && species.value != "" && Lower(target.species) != Lower(species.value) {
        continue;
      }
      var state := sub.state;
      if !Contains(Lower(state.spatialDomain), Lower(spatialDomain))
         && !Contains(Lower(spatialDomain), Lower(state.spatialDomain)) {
        continue;
      }
      var (minV, maxV) := SortedBounds(state.vmemRange);
      if minV <= vmem <= maxV {
        matches := matches + [sub];
      }
    }
    assert library[..|library|] == library;
  }

  // ---------------------------------------------------------------------------
  // Properties of predict
  // ---------------------------------------------------------------------------

  /** Every passing record of the library is returned and nothing else; the
      result is no longer than the library. */
  lemma PredictedMembers(lib: seq<Record>, vmem: real, domain: string, species: Option<string>)
    ensures var p := Predicted(lib, vmem, domain, species);
      && |p| <= |lib|
      && forall r :: r in p <==> r in lib && Passes(r, vmem, domain, species)
  {
    FilterMembers(lib, Keep(vmem, domain, species));
  }

  /** The library positions of the passing records, in increasing order. */
  ghost function PassingPositions(lib: seq<Record>, vmem: real, domain: string, species: Option<string>)
    : seq<nat>
  {
    KeptIndices(lib, Keep(vmem, domain, species))
  }

  /** The result keeps library order: it is the library read at a strictly increasing
      list of positions, and those are exactly the positions whose record passes. */
  lemma PredictedInLibraryOrder(lib: seq<Record>, vmem: real, domain: string, species: Option<string>)
    ensures var p, idx := Predicted(lib, vmem, domain, species), PassingPositions(lib, vmem, domain, species);
      && |idx| == |p|
      && (forall j | 0 <= j < |idx| :: idx[j] < |lib| && p[j] == lib[idx[j]])
      && (forall j1, j2 | 0 <= j1 < j2 < |idx| :: idx[j1] < idx[j2])
      && (forall i | 0 <= i < |lib| :: Passes(lib[i], vmem, domain, species) <==> i in idx)
  {
    var keep := Keep(vmem, domain, species);
    FilterAtKeptIndices(lib, keep);
    KeptIndicesExact(lib, keep);
  }

  /** Filtering a store with unique ids yields matches with unique ids, so the
      result of a well-formed store is itself well-formed. */
  lemma PredictedKeepsWellFormed(lib: seq<Record>, vmem: real, domain: string, species: Option<string>)
    requires WellFormed(lib)
    ensures WellFormed(Predicted(lib, vmem, domain, species))
  {
    var keep := Keep(vmem, domain, species);
    var p := Predicted(lib, vmem, domain, species);
    FilterMembers(lib, keep);
    FilterAtKeptIndices(lib, keep);
    KeptIndicesExact(lib, keep);
    var idx := KeptIndices(lib, keep);
    forall j1, j2 | 0 <= j1 < j2 < |p| ensures p[j1].id != p[j2].id {
      assert p[j1] == lib[idx[j1]] && p[j2] == lib[idx[j2]];
    }
  }

  /** The species check is skipped for `None` and for the empty string alike. */
  lemma SpeciesFilterSkipped(lib: seq<Record>, vmem: real, domain: string)
    ensures Predicted(lib, vmem, domain, None) == Predicted(lib, vmem, domain, Some(""))
  {
    FilterAgrees(lib, Keep(vmem, domain, None), Keep(vmem, domain, Some("")));
  }

  /** An empty query domain is contained in every domain, so it never rejects. */
  lemma EmptyDomainMatchesAll(domain: string)
    ensures DomainMatches("", domain)
  {
    ContainsTrivial(Lower(domain));
    assert Lower("") == "";
  }

  /** The fuzzy match accepts a coarser vocabulary: "ectoderm" matches "ventral_ectoderm". */
  lemma DomainMatchExample()
    ensures DomainMatches("ectoderm", "ventral_ectoderm")
  {
    assert Lower("ventral_ectoderm") == "ventral_" + "ectoderm";
    assert Lower("ectoderm") == "ectoderm";
    ContainsSuffix("ventral_", "ectoderm");
  }

  /** The voltage check is inclusive at both ends and does not care in which order
      the two bounds are written: [-30, -50] behaves as [-50, -30]. */
  lemma VoltageCheckOrderFree(vmem: real, a: real, b: real)
    ensures VoltageInRange(vmem, VmemRange(a, b)) <==> (a <= vmem <= b || b <= vmem <= a)
    ensures VoltageInRange(vmem, VmemRange(a, b)) == VoltageInRange(vmem, VmemRange(b, a))
  {
  }

  /** Querying with a stored record's own domain and species and a voltage inside its
      range returns that record. */
  lemma OwnStateIsPredicted(lib: seq<Record>, i: nat, vmem: real)
    requires i < |lib|
    requires SortedBounds(lib[i].state.vmemRange).0 <= vmem <= SortedBounds(lib[i].state.vmemRange).1
    ensures lib[i] in Predicted(lib, vmem, lib[i].state.spatialDomain, Some(lib[i].target.species))
  {
    var r := lib[i];
    ContainsTrivial(Lower(r.state.spatialDomain));
    assert Passes(r, vmem, r.state.spatialDomain, Some(r.target.species));
    FilterMembers(lib, Keep(vmem, r.state.spatialDomain, Some(r.target.species)));
  }

  /** In particular the midpoint of a record's range predicts that record. */
  lemma MidpointIsPredicted(lib: seq<Record>, i: nat)
    requires i < |lib|
    ensures var s := lib[i].state;
      lib[i] in Predicted(lib, (s.vmemRange.first + s.vmemRange.second) / 2.0,
                          s.spatialDomain, Some(lib[i].target.species))
  {
    var rng := lib[i].state.vmemRange;
    var mid := (rng.first + rng.second) / 2.0;
    var b := SortedBounds(rng);
    assert b.0 <= mid <= b.1;
    OwnStateIsPredicted(lib, i, mid);
  }

  // ---------------------------------------------------------------------------
  // generate_report
  // ---------------------------------------------------------------------------

  const NoMatchesMessage: string := "No matching morphological outcomes found for this pattern."

  /** `generate_report` reads each match's `notes` unconditionally. */
  predicate HasNotes(ms: seq<Record>) {
    forall k | 0 <= k < |ms| :: ms[k].state.notes.Some?
  }

  /** The `gene` of each biomarker, in order. */
  function Genes(bs: seq<Biomarker>): seq<string>
  {
    seq(|bs|, k requires 0 <= k < |bs| => bs[k].gene)
  }

  /** The Verifiers line, present only for a match with `downstream_biomarkers`. */
  function VerifierLines(m: Record): seq<string> {
    if m.biomarkers.Some? then ["  Verifiers:  Check for expression of " + Join(Genes(m.biomarkers.value), ", ")]
    else []
  }

  /** The lines of PREDICTION number `i`; `show` renders one number. */
  function PredictionBlock(i: nat, m: Record, show: real -> string): seq<string>
    requires m.state.notes.Some?
  {
    [ "\nPREDICTION #" + NatToString(i) + ": " + Upper(m.target.action) + " " + Upper(m.target.organ),
      "  Species:    " + m.target.species,
      "  Mechanism:  " + m.state.notes.value,
      "  Confidence: High (Voltage matches target range " + ShowRange(m.state.vmemRange, show) + " mV)" ]
      + VerifierLines(m)
  }

  /** The number of lines a match occupies: four, plus one for a Verifiers line. */
  function BlockSize(m: Record): nat {
    4 + (if m.biomarkers.Some? then 1 else 0)
  }

  function SumBlockSizes(ms: seq<Record>): nat
    decreases |ms|
  {
    if |ms| == 0 then 0 else SumBlockSizes(ms[..|ms| - 1]) + BlockSize(ms[|ms| - 1])
  }

  /** One PREDICTION block per match, numbered from 1 in match order. */
  function PredictionBlocks(ms: seq<Record>, show: real -> string): (bs: seq<seq<string>>)
    requires HasNotes(ms)
    ensures |bs| == |ms|
  {
    seq(|ms|, k requires 0 <= k < |ms| && ms[k].state.notes.Some? => PredictionBlock(k + 1, ms[k], show))
  }

  /** The four opening lines of a report of `count` matches. */
  function ReportHeader(count: nat): (h: seq<string>)
    ensures |h| == 4
  {
    [ Repeat('=', 60),
      "BIOELECTRIC PATTERN DECODER REPORT",
      "Matches Found: " + NatToString(count),
      Repeat('=', 60) ]
  }

  /** The `report` list built for a non-empty match list, before it is joined. */
  function ReportLines(ms: seq<Record>, show: real -> string): seq<string>
    requires HasNotes(ms)
  {
    ReportHeader(|ms|)
      + Concat(PredictionBlocks(ms, show))
      + [Repeat('-', 60)]
  }

  /** The blocks of a prefix of the matches are a prefix of the blocks. */
  lemma PredictionBlocksPrefix(ms: seq<Record>, show: real -> string, i: nat)
    requires HasNotes(ms) && i <= |ms|
    ensures HasNotes(ms[..i])
    ensures PredictionBlocks(ms, show)[..i] == PredictionBlocks(ms[..i], show)
  {
  }

  /** Appending block `i + 1` to the lines of the first `i` blocks gives the lines
      of the first `i + 1` blocks. */
  lemma BlocksStep(ms: seq<Record>, show: real -> string, i: nat,
                   header: seq<string>, before: seq<string>, after: seq<string>)
    requires HasNotes(ms) && i < |ms|
    requires before == header + Concat(PredictionBlocks(ms, show)[..i])
    requires after == before + PredictionBlock(i + 1, ms[i], show)
    ensures after == header + Concat(PredictionBlocks(ms, show)[..i + 1])
  {
    var bs := PredictionBlocks(ms, show);
    assert bs[..i + 1][..i] == bs[..i];
  }

  lemma BlocksDone(ms: seq<Record>, show: real -> string, header: seq<string>, lines: seq<string>)
    requires HasNotes(ms)
    requires header == ReportHeader(|ms|)
    requires lines == header + Concat(PredictionBlocks(ms, show)[..|ms|]) + [Repeat('-', 60)]
    ensures lines == ReportLines(ms, show)
  {
    assert PredictionBlocks(ms, show)[..|ms|] == PredictionBlocks(ms, show);
  }

  /** Renders the matches: the fixed message for none, otherwise the report lines
      joined with newlines. */
  method GenerateReport(matches: seq<Record>, show: real -> string) returns (report: string)
    requires HasNotes(matches)
    ensures matches == [] ==> report == NoMatchesMessage
    ensures matches != [] ==> report == Join(ReportLines(matches, show), "\n")
  {
    if |matches| == 0 {
      return NoMatchesMessage;
    }
    var lines: seq<string> := [];
    lines := lines + [Repeat('=', 60)];
    lines := lines + ["BIOELECTRIC PATTERN DECODER REPORT"];
    lines := lines + ["Matches Found: " + NatToString(|matches|)];
    lines := lines + [Repeat('=', 60)];
    ghost var header := lines;
    assert header == ReportHeader(|matches|);

    for i := 0 to |matches|
      invariant lines == header + Concat(PredictionBlocks(matches, show)[..i])
    {
      var m := matches[i];
      var target := m.target;
      var state := m.state;
      ghost var block := lines;
      lines := lines + ["\nPREDICTION #" + NatToString(i + 1) + ": " + Upper(target.action) + " " + Upper(target.organ)];
      lines := lines + ["  Species:    " + target.species];
      lines := lines + ["  Mechanism:  " + state.notes.value];
      lines := lines + ["  Confidence: High (Voltage matches target range " + ShowRange(state.vmemRange, show) + " mV)"];
      if m.biomarkers.Some? {
        var markers := Genes(m.biomarkers.value);
        lines := lines + ["  Verifiers:  Check for expression of " + Join(markers, ", ")];
      }
      BlocksStep(matches, show, i, header, block, lines);
    }
    lines := lines + [Repeat('-', 60)];
    BlocksDone(matches, show, header, lines);
    report := Join(lines, "\n");
  }

  // ---------------------------------------------------------------------------
  // Properties of the report
  // ---------------------------------------------------------------------------

  /** The blocks of the matches take four lines each, plus one per match with
      biomarkers. */
  lemma {:induction false} BlocksLength(ms: seq<Record>, show: real -> string)
    requires HasNotes(ms)
    ensures |Concat(PredictionBlocks(ms, show))| == SumBlockSizes(ms)
    decreases |ms|
  {
    if |ms| > 0 {
      var n := |ms| - 1;
      PredictionBlocksPrefix(ms, show, n);
      BlocksLength(ms[..n], show);
    }
  }

  /** The matches that carry `downstream_biomarkers`, in order. */
  function WithBiomarkers(ms: seq<Record>): seq<Record>
  {
    Filter(ms, (m: Record) => m.biomarkers.Some?)
  }

  /** Each match contributes `4 + [has biomarkers]` lines. */
  lemma {:induction false} SumBlockSizesCount(ms: seq<Record>)
    ensures SumBlockSizes(ms) == 4 * |ms| + |WithBiomarkers(ms)|
    decreases |ms|
  {
    if |ms| > 0 {
      SumBlockSizesCount(ms[..|ms| - 1]);
    }
  }

  /** A non-empty report has 4 header lines, the blocks (four lines per match plus one
      per match with biomarkers) and one closing line, and states the match count. */
  lemma ReportShape(ms: seq<Record>, show: real -> string)
    requires HasNotes(ms) && ms != []
    ensures |ReportLines(ms, show)| == 5 + 4 * |ms| + |WithBiomarkers(ms)|
    ensures ReportLines(ms, show)[2] == "Matches Found: " + NatToString(|ms|)
    ensures ReportLines(ms, show)[|ReportLines(ms, show)| - 1] == Repeat('-', 60)
  {
    BlocksLength(ms, show);
    SumBlockSizesCount(ms);
  }

  /** Block `i` of the report lines starts after the header and the blocks of the
      matches before it. */
  lemma ReportBlockAt(ms: seq<Record>, show: real -> string, i: nat)
    requires HasNotes(ms) && i < |ms|
    ensures var p, at := ReportLines(ms, show), 4 + SumBlockSizes(ms[..i]);
      && at + BlockSize(ms[i]) <= |p| - 1
      && p[at .. at + BlockSize(ms[i])] == PredictionBlock(i + 1, ms[i], show)
  {
    var bs := PredictionBlocks(ms, show);
    ConcatBlockAt(bs, i);
    PredictionBlocksPrefix(ms, show, i);
    BlocksLength(ms[..i], show);
    var lo := SumBlockSizes(ms[..i]);
    assert |Concat(bs[..i])| == lo;
    assert bs[i] == PredictionBlock(i + 1, ms[i], show);
    assert |bs[i]| == BlockSize(ms[i]);
    SliceOfMiddle(ReportHeader(|ms|), Concat(bs), [Repeat('-', 60)], lo, lo + BlockSize(ms[i]));
  }

  /** The block of a match: its heading, species, mechanism and confidence lines,
      and a Verifiers line listing its genes exactly when it has biomarkers. */
  lemma PredictionBlockLines(i: nat, m: Record, show: real -> string)
    requires m.state.notes.Some?
    ensures var b := PredictionBlock(i, m, show);
      && |b| == BlockSize(m)
      && b[0] == "\nPREDICTION #" + NatToString(i) + ": " + Upper(m.target.action) + " " + Upper(m.target.organ)
      && b[1] == "  Species:    " + m.target.species
      && b[2] == "  Mechanism:  " + m.state.notes.value
      && b[3] == "  Confidence: High (Voltage matches target range " + ShowRange(m.state.vmemRange, show) + " mV)"
      && (m.biomarkers.Some? ==>
            b[4] == "  Verifiers:  Check for expression of " + Join(Genes(m.biomarkers.value), ", "))
  {
  }

  /** PREDICTION #i+1 for match `i` sits in the report lines right after the header and
      the blocks of the matches before it. */
  lemma ReportPrediction(ms: seq<Record>, show: real -> string, i: nat)
    requires HasNotes(ms) && i < |ms|
    ensures var p, at, m := ReportLines(ms, show), 4 + SumBlockSizes(ms[..i]), ms[i];
      && at + BlockSize(m) <= |p| - 1
      && p[at] == "\nPREDICTION #" + NatToString(i + 1) + ": " + Upper(m.target.action) + " " + Upper(m.target.organ)
      && p[at + 1] == "  Species:    " + m.target.species
      && p[at + 2] == "  Mechanism:  " + m.state.notes.value
      && p[at + 3] == "  Confidence: High (Voltage matches target range " + ShowRange(m.state.vmemRange, show) + " mV)"
      && (m.biomarkers.Some? ==>
            p[at + 4] == "  Verifiers:  Check for expression of " + Join(Genes(m.biomarkers.value), ", "))
  {
    ReportBlockAt(ms, show, i);
    PredictionBlockLines(i + 1, ms[i], show);
    var p, at, m := ReportLines(ms, show), 4 + SumBlockSizes(ms[..i]), ms[i];
    var b := p[at .. at + BlockSize(m)];
    assert p[at] == b[0] && p[at + 1] == b[1] && p[at + 2] == b[2] && p[at + 3] == b[3];
    if m.biomarkers.Some? {
      assert p[at + 4] == b[4];
    }
  }

  /** When every record of the store has `notes`, so does every match. */
  lemma PredictedKeepsNotes(lib: seq<Record>, vmem: real, domain: string, species: Option<string>)
    requires HasNotes(lib)
    ensures HasNotes(Predicted(lib, vmem, domain, species))
  {
    var p := Predicted(lib, vmem, domain, species);
    FilterMembers(lib, Keep(vmem, domain, species));
    forall k | 0 <= k < |p| ensures p[k].state.notes.Some? {
      assert p[k] in lib;
    }
  }

  /** The report of `predict`'s result announces as many matches as `predict` found. */
  lemma ReportOfPrediction(lib: seq<Record>, vmem: real, domain: string, species: Option<string>,
                           show: real -> string)
    requires HasNotes(Predicted(lib, vmem, domain, species))
    requires Predicted(lib, vmem, domain, species) != []
    ensures ReportLines(Predicted(lib, vmem, domain, species), show)[2]
         == "Matches Found: " + NatToString(|Predicted(lib, vmem, domain, species)|)
  {
  }
}
