/** The subroutine record of the record store, restricted to the keys that the
    forward compiler, the inverse predictor and the state validator read. Keys a
    record may lack are `Option`s; the others are required. */
module Schema {
  import opened Optional

  /** `target_morphology`: the morphogenetic goal. */
  datatype Target = Target(organ: string, species: string, action: string)

  /** `target_vmem_range`: exactly two numbers (mV), in the order written;
      callers sort them before reading them as a minimum and a maximum. */
  datatype VmemRange = VmemRange(first: real, second: real)

  /** `bioelectric_state`. */
  datatype BioState = BioState(
    spatialDomain: string,
    vmemRange: VmemRange,
    durationHours: real,
    notes: Option<string>)

  /** One entry of `hardware_drivers`; `kind` is the `type` key. */
  datatype Driver = Driver(name: string, kind: string, mechanism: string, dosage: Option<string>)

  /** `metadata`; only its optional `references` list is read. */
  datatype Metadata = Metadata(references: Option<seq<string>>)

  /** One entry of `downstream_biomarkers`; only `gene` is read. */
  datatype Biomarker = Biomarker(gene: string, expectedExpression: string)

  datatype Record = Record(
    id: string,
    target: Target,
    state: BioState,
    drivers: seq<Driver>,
    metadata: Option<Metadata>,
    biomarkers: Option<seq<Biomarker>>)

  /** `sorted(target_vmem_range)` unpacked into `min_v, max_v`. */
  function SortedBounds(r: VmemRange): (b: (real, real))
    ensures b.0 <= b.1
    ensures (b.0 == r.first && b.1 == r.second) || (b.0 == r.second && b.1 == r.first)
  {
    if r.first <= r.second then (r.first, r.second) else (r.second, r.first)
  }

  /** Sorting forgets the order in which the two bounds were written. */
  lemma SortedBoundsSymmetric(a: real, b: real)
    ensures SortedBounds(VmemRange(a, b)) == SortedBounds(VmemRange(b, a))
  {
  }

  /** No two records of the store share an `id`. */
  predicate UniqueIds(lib: seq<Record>) {
    forall i, j | 0 <= i < j < |lib| :: lib[i].id != lib[j].id
  }

  /** What the store's integrity tests demand of every record: unique ids and at
      least one hardware driver. The nested keys the core reads and the two-entry
      voltage range are enforced by the types above. */
  predicate WellFormed(lib: seq<Record>) {
    UniqueIds(lib) && forall r | r in lib :: |r.drivers| > 0
  }

  /** Python's rendering of the two-entry range list, `[a, b]`, in the order
      written; `show` renders one number. */
  function ShowRange(r: VmemRange, show: real -> string): string {
    "[" + show(r.first) + ", " + show(r.second) + "]"
  }
}
