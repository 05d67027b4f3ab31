/** Replacing several files together (`_atomic_replace_pack_bytes`) inside a transaction that
    rolls back (`apply_attestation`), under a failure at any point. */
module AtomicReplace {
  import opened Sequences
  import opened Utf8

  type Files = map<string, Bytes>

  /** A checkout whose files are replaced one at a time, each replacement atomic. */
  class Checkout {
    var files: Files

    constructor (initial: Files)
      ensures files == initial
    {
      files := initial;
    }

    /** `os.replace(staged, target)` */
    method Replace(target: string, payload: Bytes)
      modifies this
      ensures files == old(files)[target := payload]
    {
      files := files[target := payload];
    }
  }

  /** Where the forward pass fails: before anything was replaced, in the `k`-th `os.replace`, by an
      asynchronous exception after the `k`-th replacement took effect but before it was recorded, or
      while the emptied staging directory is removed. */
  datatype Fault = NoFault | WhileStaging | InReplace(k: nat) | AfterReplace(k: nat) | InCleanup

  /** The original files, with the updates in place for `dirty`. */
  function Mixed(original: Files, updates: Files, dirty: set<string>): Files
    requires updates.Keys <= original.Keys && dirty <= updates.Keys
  {
    map p | p in original :: if p in dirty then updates[p] else original[p]
  }

  predicate Ordered(order: seq<string>, updates: Files) {
    NoDuplicates(order) && Members(order) == updates.Keys
  }

  // ---- The helper alone ----

  /** The fault hits this run. */
  predicate Hits(fault: Fault, count: nat) {
    match fault
    case NoFault => false
    case WhileStaging => true
    case InReplace(k) => k < count
    case AfterReplace(k) => k < count
    case InCleanup => true
  }

  /** The targets left updated when the helper is done. */
  function LeftDirty(order: seq<string>, fault: Fault): (dirty: set<string>)
    ensures dirty <= Members(order)
  {
    match fault
    case NoFault => Members(order)
    case WhileStaging => {}
    case InReplace(k) => if k < |order| then {} else Members(order)
    case AfterReplace(k) => if k < |order| then {order[k]} else Members(order)
    case InCleanup => Members(order)
  }

  /** Takes back the recorded replacements, in the order they were made. */
  method Recover(root: Checkout, originals: Files, updates: Files, replaced: seq<string>, ghost lost: set<string>)
    requires NoDuplicates(replaced) && updates.Keys <= originals.Keys && Members(replaced) <= updates.Keys && lost <= updates.Keys && lost !! Members(replaced)
    requires root.files == Mixed(originals, updates, Members(replaced) + lost)
    modifies root
    ensures root.files == Mixed(originals, updates, lost)
  {
    var i := 0;
    assert replaced[0..] == replaced;
    while i < |replaced|
      invariant 0 <= i <= |replaced|
      invariant root.files == Mixed(originals, updates, Members(replaced[i..]) + lost)
    {
      assert replaced[i..] == [replaced[i]] + replaced[i + 1..];
      assert replaced[i] in Members(replaced);
      root.Replace(replaced[i], originals[replaced[i]]);
      TakenBack(originals, updates, replaced[i], replaced[i + 1..], lost);
      i := i + 1;
    }
    assert Members(replaced[i..]) + lost == lost;
  }

  lemma TakenBack(originals: Files, updates: Files, p: string, rest: seq<string>, lost: set<string>)
    requires updates.Keys <= originals.Keys && p in updates && Members(rest) <= updates.Keys && lost <= updates.Keys
    requires p !in lost && p !in rest
    ensures Members([p] + rest) == Members(rest) + {p}
    ensures Mixed(originals, updates, Members([p] + rest) + lost)[p := originals[p]] == Mixed(originals, updates, Members(rest) + lost)
  {
  }

  lemma OneMore(originals: Files, updates: Files, order: seq<string>, i: nat)
    requires updates.Keys <= originals.Keys && Ordered(order, updates) && i < |order|
    ensures order[i] in updates && Members(order[..i]) <= updates.Keys
    ensures Members(order[..i + 1]) == Members(order[..i]) + {order[i]} && order[i] !in Members(order[..i])
    ensures Mixed(originals, updates, Members(order[..i]))[order[i] := updates[order[i]]] == Mixed(originals, updates, Members(order[..i + 1]))
  {
    assert order[..i + 1] == order[..i] + [order[i]];
    assert order[i] in Members(order);
    forall p | p in Members(order[..i]) ensures p in updates { assert p in Members(order); }
  }

  /** `_atomic_replace_pack_bytes`: replaces the targets in name order, and on a failure takes back those it recorded. */
  method ReplaceAll(root: Checkout, updates: Files, order: seq<string>, fault: Fault) returns (ok: bool)
    requires Ordered(order, updates)
    modifies root
    ensures ok <==> updates.Keys <= old(root.files).Keys && !Hits(fault, |order|)
    ensures root.files ==
              if updates.Keys <= old(root.files).Keys then Mixed(old(root.files), updates, LeftDirty(order, fault)) else old(root.files)
  {
    hide NoDuplicates, Mixed;
    if !(updates.Keys <= root.files.Keys) { return false; }
    var originals := root.files;
    NothingDirty(originals, updates);
    if fault == WhileStaging { return false; }
    var i := 0;
    assert Members(order[..0]) == {};
    while i < |order|
      invariant 0 <= i <= |order|
      invariant Members(order[..i]) <= updates.Keys
      invariant root.files == Mixed(originals, updates, Members(order[..i]))
      invariant fault.InReplace? || fault.AfterReplace? ==> i <= fault.k
    {
      OneMore(originals, updates, order, i);
      NoDuplicatesFront(order, i);
      assert Members(order[..i]) + {} == Members(order[..i]);
      if fault == InReplace(i) {
        Recover(root, originals, updates, order[..i], {});
        return false;
      }
      root.Replace(order[i], updates[order[i]]);
      if fault == AfterReplace(i) {
        Recover(root, originals, updates, order[..i], {order[i]});
        return false;
      }
      i := i + 1;
    }
    assert order[..i] == order;
    return fault != InCleanup;
  }

  lemma NothingDirty(originals: Files, updates: Files)
    requires updates.Keys <= originals.Keys
    ensures Mixed(originals, updates, {}) == originals
  {
  }

  lemma NoDuplicatesFront(order: seq<string>, i: nat)
    requires i <= |order| && NoDuplicates(order)
    ensures NoDuplicates(order[..i])
  {
  }

  /** A failure of the helper alone leaves every original exactly when it did not strike after a changed
      file was replaced and before that was recorded, nor after the last one. */
  lemma HelperRestoresExactly(originals: Files, updates: Files, order: seq<string>, fault: Fault)
    requires updates.Keys <= originals.Keys && Ordered(order, updates) && Hits(fault, |order|)
    ensures Mixed(originals, updates, LeftDirty(order, fault)) == originals <==>
              match fault
              case AfterReplace(k) => updates[order[k]] == originals[order[k]]
              case InCleanup => forall p :: p in updates ==> updates[p] == originals[p]
              case _ => true
  {
    hide NoDuplicates;
    var left := Mixed(originals, updates, LeftDirty(order, fault));
    if fault.AfterReplace? {
      assert order[fault.k] in Members(order);
      assert left[order[fault.k]] == updates[order[fault.k]];
    }
    if fault == InCleanup && left == originals {
      forall p | p in updates ensures updates[p] == originals[p] { assert left[p] == updates[p]; }
    }
  }

  /** So the helper alone is not all-or-nothing. */
  lemma HelperCanLeaveOneFileUpdated()
    ensures Mixed(map["a" := [0], "b" := [0]], map["a" := [1], "b" := [1]], LeftDirty(["a", "b"], AfterReplace(0))) == map["a" := [1], "b" := [0]]
    ensures Hits(AfterReplace(0), 2) && Ordered(["a", "b"], map["a" := [1], "b" := [1]])
  {
    assert Members(["a", "b"]) == {"a", "b"};
  }

  // ---- The transaction ----

  /** What else may go wrong: the snapshots are stale before, or a check after the replacement fails. */
  datatype Checks = Checks(currentBefore: bool, exactAfter: bool, currentAfter: bool)

  predicate Unchanged(files: Files, originals: Files) {
    forall p :: p in originals ==> p in files && files[p] == originals[p]
  }

  /** `apply_attestation`: normal return updates every pack, an exception leaves every original,
      and no other file is touched, wherever the forward pass fails. */
  method ApplyAttestation(root: Checkout, updates: Files, originals: Files, order: seq<string>, fault: Fault, checks: Checks)
    returns (ok: bool)
    requires updates.Keys == originals.Keys && Ordered(order, updates)
    modifies root
    ensures root.files == if ok then old(root.files) + updates else old(root.files)
    ensures ok <==> Unchanged(old(root.files), originals) && !Hits(fault, |order|) && checks.currentBefore && checks.exactAfter && checks.currentAfter
  {
    hide NoDuplicates;
    if !Unchanged(root.files, originals) { return false; }
    if !checks.currentBefore { return false; }
    ghost var before := root.files;
    ok := ReplaceAll(root, updates, order, fault);
    if ok && checks.exactAfter && Unchanged(root.files, updates) && checks.currentAfter { return true; }
    if ok { AllUpdated(before, updates, order, fault); }
    if !Unchanged(root.files, originals) {
      var recovered := ReplaceAll(root, originals, order, NoFault);
    }
    RolledBack(before, updates, originals, order, fault);
    ok := false;
  }

  lemma AllUpdated(before: Files, updates: Files, order: seq<string>, fault: Fault)
    requires updates.Keys <= before.Keys && Ordered(order, updates) && !Hits(fault, |order|)
    ensures Mixed(before, updates, LeftDirty(order, fault)) == before + updates
    ensures Unchanged(before + updates, updates)
  {
  }

  lemma RolledBack(before: Files, updates: Files, originals: Files, order: seq<string>, fault: Fault)
    requires updates.Keys == originals.Keys && Unchanged(before, originals) && Ordered(order, updates)
    ensures var left := Mixed(before, updates, LeftDirty(order, fault));
      && (Unchanged(left, originals) ==> left == before)
      && Mixed(left, originals, LeftDirty(order, NoFault)) == before
  {
  }
}
