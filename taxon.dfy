/**
 * The taxon registry of DendroPy (`TaxonSet` and `Taxon` in
 * dendropy/dataobject/taxon.py): an ordered set of distinct taxon identities,
 * a mutability flag, and the split bitmasks derived from each taxon's position.
 */
module Taxa {
  import opened Wrappers
  import opened Bits

  /** The exceptions the registry raises. */
  datatype TaxonError =
    | MissingIdAndLabel    // get_taxon called with neither an oid nor a label
    | TaxonNotFound        // no match, a taxon is required, and the set is locked
    | ImmutableTaxonSet    // new_taxon on a locked set
    | LabelAlreadyDefined  // new_taxon with error_if_label_exists and a clashing label
    | NotAMember           // taxon_bitmask of an uncached taxon that is not in the set

  /** Python truthiness of an optional string argument: None and "" are false. */
  predicate Given(s: Option<string>)
  {
    s.Some? && s.value != ""
  }

  /** `str(taxon.label)`: a missing label prints as "None". */
  function LabelText(name: Option<string>): string
  {
    if name.Some? then name.value else "None"
  }

  /**
   * The oid a new taxon receives: the caller's, or else the one the IdTagged
   * base class generates, which the caller supplies here as `generated`.
   */
  function NewOid(oid: Option<string>, generated: string): string
  {
    if oid.Some? then oid.value else generated
  }

  /** A taxon identity; `name` holds the Python attribute `label` (`label` is a Dafny keyword). */
  class Taxon {
    const name: Option<string>
    const oid: string
    /** The cached `clade_mask` attribute; None while it has never been set. */
    var cladeMask: Option<int>

    constructor (name: Option<string>, oid: string)
      ensures this.name == name && this.oid == oid && cladeMask == None
    {
      this.name := name;
      this.oid := oid;
      cladeMask := None;
    }
  }

  /** get_taxon's test: `taxon.oid == oid or taxon.label == label`. */
  predicate Matches(t: Taxon, name: Option<string>, oid: Option<string>)
  {
    oid == Some(t.oid) || t.name == name
  }

  /** The position of the first taxon that get_taxon's scan accepts, if any. */
  function FirstMatch(taxa: seq<Taxon>, name: Option<string>, oid: Option<string>): (r: Option<nat>)
    ensures r.Some? ==> r.value < |taxa| && Matches(taxa[r.value], name, oid)
    ensures r.Some? ==> forall j :: 0 <= j < r.value ==> !Matches(taxa[j], name, oid)
    ensures r.None? ==> forall j :: 0 <= j < |taxa| ==> !Matches(taxa[j], name, oid)
  {
    if taxa == [] then None
    else if Matches(taxa[0], name, oid) then Some(0)
    else match FirstMatch(taxa[1..], name, oid)
      case None => None
      case Some(k) => Some(k + 1)
  }

  /** Some member already carries this label (the duplicate test of new_taxon). */
  predicate LabelTaken(taxa: seq<Taxon>, name: Option<string>)
  {
    exists j :: 0 <= j < |taxa| && taxa[j].name == name
  }

  /** `OrderedSet.index(t)`: the position of t. */
  function IndexOf(taxa: seq<Taxon>, t: Taxon): (k: nat)
    requires t in taxa
    ensures k < |taxa| && taxa[k] == t && t !in taxa[..k]
  {
    if taxa[0] == t then 0
    else
      assert taxa == [taxa[0]] + taxa[1..];
      var k := IndexOf(taxa[1..], t);
      assert taxa[..k + 1] == [taxa[0]] + taxa[1..][..k];
      k + 1
  }

  /** `all_taxa_bitmask()` of a set holding n taxa: `(1 << n) - 1`, one bit per taxon. */
  function AllTaxaBitmask(n: nat): (r: nat)
    ensures r + 1 == Pow2(n)
    ensures forall k: nat :: BitSet(r, k) <==> k < n
  {
    var r := Pow2(n) - 1;
    assert forall k: nat :: BitSet(r, k) <==> k < n by {
      forall k: nat ensures BitSet(r, k) <==> k < n {
        AllOnesBits(n, k);
      }
    }
    r
  }

  /**
   * `complement_split_bitmask(split)` of a set holding n taxa:
   * `(~split) & all_taxa_bitmask()`: the taxa on the other side of the split.
   */
  function ComplementSplitBitmask(split: int, n: nat): (r: nat)
    ensures r <= AllTaxaBitmask(n)
    ensures forall k: nat :: BitSet(r, k) <==> k < n && !BitSet(split, k)
  {
    var r := And(Not(split), AllTaxaBitmask(n));
    assert forall k: nat :: BitSet(r, k) <==> k < n && !BitSet(split, k) by {
      forall k: nat ensures BitSet(r, k) <==> k < n && !BitSet(split, k) {
        AndBits(Not(split), AllTaxaBitmask(n), k);
        NotBits(split, k);
      }
    }
    r
  }

  /** A split and its complement share no taxon: `split & complement == 0`. */
  lemma ComplementDisjoint(split: int, n: nat)
    ensures And(split, ComplementSplitBitmask(split, n)) == 0
  {
    var c := ComplementSplitBitmask(split, n);
    forall k: nat ensures BitSet(And(split, c), k) == BitSet(0, k) {
      AndBits(split, c, k);
      ZeroHasNoBits(k);
    }
    BitsDetermine(And(split, c), 0);
  }

  /** Together a split and its complement cover every taxon: `(split | complement) & all == all`. */
  lemma ComplementCovers(split: int, n: nat)
    ensures And(Or(split, ComplementSplitBitmask(split, n)), AllTaxaBitmask(n)) == AllTaxaBitmask(n)
  {
    var c := ComplementSplitBitmask(split, n);
    var all := AllTaxaBitmask(n);
    forall k: nat ensures BitSet(And(Or(split, c), all), k) == BitSet(all, k) {
      AndBits(Or(split, c), all, k);
      OrBits(split, c, k);
    }
    BitsDetermine(And(Or(split, c), all), all);
  }

  /** For a split within the taxa, `split | complement == all` and complementing twice gives it back. */
  lemma ComplementInvolutive(split: int, n: nat)
    requires 0 <= split <= AllTaxaBitmask(n)
    ensures Or(split, ComplementSplitBitmask(split, n)) == AllTaxaBitmask(n)
    ensures ComplementSplitBitmask(ComplementSplitBitmask(split, n), n) == split
  {
    var c := ComplementSplitBitmask(split, n);
    var all := AllTaxaBitmask(n);
    forall k: nat ensures BitSet(Or(split, c), k) == BitSet(all, k) && BitSet(ComplementSplitBitmask(c, n), k) == BitSet(split, k) {
      OrBits(split, c, k);
      if k >= n {
        BelowPow2Bits(split, n, k);
      }
    }
    BitsDetermine(Or(split, c), all);
    BitsDetermine(ComplementSplitBitmask(c, n), split);
  }

  /** The mask `1 << k` of the taxon at position k lies within `all_taxa_bitmask()`. */
  lemma TaxonMaskWithinAll(k: nat, n: nat)
    requires k < n
    ensures And(Pow2(k), AllTaxaBitmask(n)) == Pow2(k)
  {
    forall j: nat ensures BitSet(And(Pow2(k), AllTaxaBitmask(n)), j) == BitSet(Pow2(k), j) {
      AndBits(Pow2(k), AllTaxaBitmask(n), j);
      Pow2Bits(k, j);
    }
    BitsDetermine(And(Pow2(k), AllTaxaBitmask(n)), Pow2(k));
  }

  /** Taxa at different positions get masks with no bit in common. */
  lemma TaxonMasksDisjoint(i: nat, j: nat)
    requires i != j
    ensures And(Pow2(i), Pow2(j)) == 0
  {
    forall k: nat ensures BitSet(And(Pow2(i), Pow2(j)), k) == BitSet(0, k) {
      AndBits(Pow2(i), Pow2(j), k);
      Pow2Bits(i, k);
      Pow2Bits(j, k);
      ZeroHasNoBits(k);
    }
    BitsDetermine(And(Pow2(i), Pow2(j)), 0);
  }

  /** Appending at the end leaves the position, hence the mask, of every earlier member unchanged. */
  lemma {:induction false} AppendKeepsIndex(taxa: seq<Taxon>, t: Taxon, u: Taxon)
    requires u in taxa
    ensures IndexOf(taxa + [t], u) == IndexOf(taxa, u)
  {
    if taxa[0] != u {
      assert (taxa + [t])[1..] == taxa[1..] + [t];
      AppendKeepsIndex(taxa[1..], t, u);
    }
  }

  class TaxonSet {
    /** The members in insertion order; a member's position is its bit position. */
    var taxa: seq<Taxon>
    /** `_is_mutable`: whether get_taxon and new_taxon may append. */
    var isMutable: bool

    /** The ordered-set invariant: no taxon occurs twice. */
    ghost predicate Valid()
      reads this
    {
      forall i, j :: 0 <= i < j < |taxa| ==> taxa[i] != taxa[j]
    }

    constructor (isMutable: bool)
      ensures Valid() && taxa == [] && this.isMutable == isMutable
    {
      taxa := [];
      this.isMutable := isMutable;
    }

    method Lock()
      modifies this
      ensures !isMutable && taxa == old(taxa)
    {
      isMutable := false;
    }

    method Unlock()
      modifies this
      ensures isMutable && taxa == old(taxa)
    {
      isMutable := true;
    }

    /**
     * The `is_locked` property as written: its getter returns `_is_mutable`,
     * so it answers true for a set that accepts new taxa.
     */
    function IsLockedAsWritten(): (r: bool)
      reads this
      ensures r <==> isMutable
    {
      isMutable
    }

    /** The `is_locked` setter as written: `_is_mutable = bool(v)`. */
    method SetIsLockedAsWritten(v: bool)
      modifies this
      ensures isMutable == v && taxa == old(taxa)
    {
      isMutable := v;
    }

    /** `is_locked` as its name and `lock()` intend: true exactly when appends are refused. */
    function IsLocked(): (r: bool)
      reads this
      ensures r <==> !isMutable
    {
      !isMutable
    }

    /** The `is_locked` setter as intended: locking is `lock()`, unlocking is `unlock()`. */
    method SetIsLocked(v: bool)
      modifies this
      ensures IsLocked() == v && taxa == old(taxa)
    {
      isMutable := !v;
    }

    /** `labels()`: `str(label)` of every member, in set order. */
    function Labels(): (r: seq<string>)
      reads this
      ensures |r| == |taxa|
      ensures forall i :: 0 <= i < |taxa| ==> r[i] == LabelText(taxa[i].name)
    {
      var ts := taxa;
      seq(|ts|, i requires 0 <= i < |ts| => LabelText(ts[i].name))
    }

    /**
     * `get_taxon`: the first member whose oid or label matches; when there is
     * none, a new taxon appended at the end (taxon required, set mutable), an
     * error (taxon required, set locked) or None.
     */
    method GetTaxon(name: Option<string>, oid: Option<string>, taxonRequired: bool, generatedOid: string)
      returns (r: Result<Option<Taxon>, TaxonError>)
      requires Valid()
      modifies this
      ensures Valid() && isMutable == old(isMutable)
      ensures !Given(name) && !Given(oid) ==> r == Failure(MissingIdAndLabel) && taxa == old(taxa)
      ensures (Given(name) || Given(oid)) && FirstMatch(old(taxa), name, oid).Some? ==>
                r == Success(Some(old(taxa)[FirstMatch(old(taxa), name, oid).value])) && taxa == old(taxa)
      ensures (Given(name) || Given(oid)) && FirstMatch(old(taxa), name, oid).None? && !taxonRequired ==>
                r == Success(None) && taxa == old(taxa)
      ensures (Given(name) || Given(oid)) && FirstMatch(old(taxa), name, oid).None? && taxonRequired && !isMutable ==>
                r == Failure(TaxonNotFound) && taxa == old(taxa)
      ensures (Given(name) || Given(oid)) && FirstMatch(old(taxa), name, oid).None? && taxonRequired && isMutable ==>
                && r.Success? && r.value.Some? && fresh(r.value.value)
                && taxa == old(taxa) + [r.value.value]
                && r.value.value.name == name && r.value.value.oid == NewOid(oid, generatedOid)
                && r.value.value.cladeMask == None
    {
      if !Given(oid) && !Given(name) {
        return Failure(MissingIdAndLabel);
      }
      var i := 0;
      while i < |taxa|
        invariant 0 <= i <= |taxa|
        invariant forall j :: 0 <= j < i ==> !Matches(taxa[j], name, oid)
      {
        if Matches(taxa[i], name, oid) {
          return Success(Some(taxa[i]));
        }
        i := i + 1;
      }
      if taxonRequired {
        if !isMutable {
          return Failure(TaxonNotFound);
        }
        var t := new Taxon(name, NewOid(oid, generatedOid));
        taxa := taxa + [t];
        return Success(Some(t));
      }
      return Success(None);
    }

    /** `add_taxon`: `OrderedSet.add`, which appends a taxon not yet present (no lock check). */
    method AddTaxon(t: Taxon)
      requires Valid()
      modifies this
      ensures Valid() && isMutable == old(isMutable)
      ensures taxa == if t in old(taxa) then old(taxa) else old(taxa) + [t]
    {
      if t !in taxa {
        taxa := taxa + [t];
      }
    }

    /**
     * `new_taxon`: refuses on a locked set, and on a label clash when asked to;
     * otherwise appends a new taxon, so every earlier member keeps its position.
     */
    method NewTaxon(name: Option<string>, oid: Option<string>, errorIfLabelExists: bool, generatedOid: string)
      returns (r: Result<Taxon, TaxonError>)
      requires Valid()
      modifies this
      ensures Valid() && isMutable == old(isMutable)
      ensures !isMutable ==> r == Failure(ImmutableTaxonSet) && taxa == old(taxa)
      ensures isMutable && errorIfLabelExists && !Given(name) ==>
                r == Failure(MissingIdAndLabel) && taxa == old(taxa)
      ensures isMutable && errorIfLabelExists && Given(name) && LabelTaken(old(taxa), name) ==>
                r == Failure(LabelAlreadyDefined) && taxa == old(taxa)
      ensures isMutable && (!errorIfLabelExists || (Given(name) && !LabelTaken(old(taxa), name))) ==>
                && r.Success? && fresh(r.value) && taxa == old(taxa) + [r.value]
                && r.value.name == name && r.value.oid == NewOid(oid, generatedOid) && r.value.cladeMask == None
    {
      if !isMutable {
        return Failure(ImmutableTaxonSet);
      }
      if errorIfLabelExists {
        var found := GetTaxon(name, None, false, generatedOid);
        if found.Failure? {
          return Failure(found.error);
        }
        if found.value.Some? {
          return Failure(LabelAlreadyDefined);
        }
      }
      var t := new Taxon(name, NewOid(oid, generatedOid));
      taxa := taxa + [t];
      return Success(t);
    }

    /** `clear`: the set becomes empty; masks already cached on former members stay on them. */
    method Clear()
      modifies this
      ensures Valid() && taxa == [] && isMutable == old(isMutable)
    {
      taxa := [];
    }

    /**
     * `taxon_bitmask`: the cached mask if there is one; otherwise `1 << index`,
     * cached on the taxon; a non-member without a cache is an error.
     */
    method TaxonBitmask(t: Taxon) returns (r: Result<int, TaxonError>)
      requires Valid()
      modifies t
      ensures old(t.cladeMask).Some? ==> r == Success(old(t.cladeMask).value) && t.cladeMask == old(t.cladeMask)
      ensures old(t.cladeMask).None? && t in taxa ==>
                r == Success(Pow2(IndexOf(taxa, t))) && t.cladeMask == Some(Pow2(IndexOf(taxa, t)))
      ensures old(t.cladeMask).None? && t !in taxa ==> r == Failure(NotAMember) && t.cladeMask == None
    {
      if t.cladeMask.Some? {
        return Success(t.cladeMask.value);
      }
      if t !in taxa {
        return Failure(NotAMember);
      }
      var m := Pow2(IndexOf(taxa, t));
      t.cladeMask := Some(m);
      return Success(m);
    }
  }

  /**
   * `new_taxon_set(ntax, label_func)`: a mutable set of ntax new taxa whose
   * labels are `label_func(1) .. label_func(ntax)`, in that order.
   */
  method NewTaxonSet(ntax: nat, labelFunc: nat -> string, generatedOid: nat -> string) returns (ts: TaxonSet)
    ensures fresh(ts) && ts.Valid() && ts.isMutable
    ensures |ts.Labels()| == ntax && forall i :: 0 <= i < ntax ==> ts.Labels()[i] == labelFunc(i + 1)
    ensures forall i :: 0 <= i < |ts.taxa| ==> fresh(ts.taxa[i]) && ts.taxa[i].cladeMask == None
  {
    ts := new TaxonSet(true);
    var i := 0;
    while i < ntax
      invariant 0 <= i <= ntax
      invariant fresh(ts) && ts.Valid() && ts.isMutable && |ts.taxa| == i
      invariant forall j :: 0 <= j < i ==> ts.taxa[j].name == Some(labelFunc(j + 1))
      invariant forall j :: 0 <= j < i ==> fresh(ts.taxa[j]) && ts.taxa[j].cladeMask == None
    {
      var r := ts.NewTaxon(Some(labelFunc(i + 1)), None, false, generatedOid(i));
      i := i + 1;
    }
  }

  /**
   * The stale-mask hazard: B's mask is cached while B sits at position 1; after
   * `clear` and re-adding B at position 0, taxon_bitmask still answers the old
   * mask 2 rather than `1 << 0`.
   */
  method CachedMaskSurvivesReorder() returns (before: Result<int, TaxonError>, after: Result<int, TaxonError>, position: nat)
    ensures before == Success(2) && after == Success(2)
    ensures position == 0 && Pow2(position) == 1
  {
    var ts := new TaxonSet(true);
    var a := ts.NewTaxon(Some("A"), None, false, "oid-a");
    var b := ts.NewTaxon(Some("B"), None, false, "oid-b");
    var tb := b.value;
    assert ts.taxa == [a.value, tb] && IndexOf(ts.taxa, tb) == 1;
    assert Pow2(1) == 2;
    before := ts.TaxonBitmask(tb);
    ts.Clear();
    ts.AddTaxon(tb);
    assert ts.taxa == [tb];
    position := IndexOf(ts.taxa, tb);
    after := ts.TaxonBitmask(tb);
  }

  /**
   * After `lock()`, the getter as written reports the set unlocked although
   * new_taxon refuses to append; the intended getter reports it locked.
   */
  method LockedSetReportsUnlocked() returns (asWritten: bool, intended: bool, added: Result<Taxon, TaxonError>)
    ensures !asWritten && intended
    ensures added == Failure(ImmutableTaxonSet)
  {
    var ts := new TaxonSet(true);
    ts.Lock();
    asWritten := ts.IsLockedAsWritten();
    intended := ts.IsLocked();
    added := ts.NewTaxon(Some("A"), None, false, "oid-a");
  }

  /** Locking through the intended setter makes new_taxon refuse; unlocking lets it append. */
  method IntendedSetterGatesAppends() returns (whileLocked: Result<Taxon, TaxonError>, afterUnlock: Result<Taxon, TaxonError>)
    ensures whileLocked == Failure(ImmutableTaxonSet)
    ensures afterUnlock.Success? && afterUnlock.value.name == Some("A")
  {
    var ts := new TaxonSet(true);
    ts.SetIsLocked(true);
    whileLocked := ts.NewTaxon(Some("A"), None, false, "oid-a");
    ts.SetIsLocked(false);
    afterUnlock := ts.NewTaxon(Some("A"), None, false, "oid-a");
  }
}
