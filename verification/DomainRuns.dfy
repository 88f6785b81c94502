/** Whole runs of a capability domain: any calls, in any order, with any outcomes. */
module DomainRuns {
  import opened ObjectIds
  import opened CapTables
  import opened Mailboxes
  import opened Domains
  import opened CapabilityDomains
  import D = Derivations

  datatype Call =
    | Begin(memory: bool)
    | Abort
    | Commit(outcome: Outcome, memory: bool)
    | Write(staged: Staged, memory: bool)
    | Derive(owner: nat, slot: nat, rights: bv32, badge: nat)
    | Send(sender: nat, target: nat, payload: seq<Byte>, source: int, rights: bv32, badge: nat)
    | Revoke(owner: nat, slot: nat)

  /** A reference denotes one capability for as long as it denotes anything. */
  ghost predicate ReferencesLast(states: seq<Items>) {
    forall i: nat, j: nat, k: nat, r: Ref ::
      i <= j <= k < |states| && Lookup(states[i], r).Some? && Lookup(states[k], r).Some?
      ==> Lookup(states[j], r) == Lookup(states[i], r) == Lookup(states[k], r)
  }

  /** Along every chain of derivations the object is constant and rights only shrink. */
  ghost predicate RightsOnlyShrink(items: Items, lineage: seq<Edge>) {
    forall r: Ref, n: nat :: n > 0 && D.Up(lineage, r, n).Some? ==>
      && var a := D.Up(lineage, r, n).value;
         && a != r && Lookup(items, r).Some? && Lookup(items, a).Some?
         && MayDerive(Lookup(items, a).value, Lookup(items, r).value)
  }

  method Perform(d: CapabilityDomain, call: Call)
    requires d.Valid()
    modifies d
    ensures d.Valid() && old(d.past) <= d.past
    ensures old(d.halted) ==> d.halted && d.items == old(d.items)
  {
    hide DomainOk, Chronicle, Stored, Tracked, Grantable, GrantSent, MayGrant, Posted, AllSwept, Lookup, Weight, NoFencedEdge;
    match call
    case Begin(memory) => var _ := d.Begin(memory);
    case Abort => d.Abort();
    case Commit(outcome, memory) => var _ := d.Commit(outcome, memory);
    case Write(staged, memory) => var _ := d.StageWrite(staged, memory);
    case Derive(owner, slot, rights, badge) => var _ := d.Derive(owner, slot, rights, badge);
    case Send(sender, target, payload, source, rights, badge) => var _ := d.Send(sender, target, payload, source, rights, badge);
    case Revoke(owner, slot) => var _, _ := d.Revoke(owner, slot);
  }

  /** After any calls the domain is well-formed and no committed reference was ever reused. */
  method Serve(d: CapabilityDomain, calls: seq<Call>)
    requires d.Valid()
    modifies d
    ensures d.Valid() && old(d.past) <= d.past
    ensures ReferencesLast(d.past) && RightsOnlyShrink(d.items, d.lineage)
  {
    hide ReferencesLast, RightsOnlyShrink, CapabilityDomain.Valid;
    var i := 0;
    while i < |calls|
      invariant d.Valid() && old(d.past) <= d.past
    {
      Perform(d, calls[i]);
      i := i + 1;
    }
    ValidReferences(d);
  }

  lemma ValidReferences(d: CapabilityDomain)
    requires d.Valid()
    ensures ReferencesLast(d.past) && RightsOnlyShrink(d.items, d.lineage)
  {
    hide Lookup, DomainOk, Chronicle, CapabilityDomain.InTransaction, Stored, D.Up, MayDerive;
    forall i: nat, j: nat, k: nat, r: Ref
      | i <= j <= k < |d.past| && Lookup(d.past[i], r).Some? && Lookup(d.past[k], r).Some?
      ensures Lookup(d.past[j], r) == Lookup(d.past[i], r) == Lookup(d.past[k], r)
    {
      ReferenceIsForever(d.past, i, j, k, r);
    }
    forall r: Ref, n: nat | n > 0 && D.Up(d.lineage, r, n).Some?
      ensures var a := D.Up(d.lineage, r, n).value;
              && a != r && Lookup(d.items, r).Some? && Lookup(d.items, a).Some?
              && MayDerive(Lookup(d.items, a).value, Lookup(d.items, r).value)
    {
      RightsShrink(d.items, d.lineage, r, n);
    }
  }
}
