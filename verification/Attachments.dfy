/** Attachment rows: found by content hash or by logical key, and never talked out of bytes
    that the archive owns. */
module Attachments {
  import opened Basics

  datatype Availability = Available | Missing | Unsafe | Unresolved

  datatype Attachment = Attachment(stableKey: Option<Text>, sha256: Text, availability: Availability, casKey: Option<Text>)

  /** One observation; an absent or empty CAS key is None. */
  datatype Observed = Observed(stableKey: Text, sha256: Text, availability: Availability, casKey: Option<Text>)

  /** Rows are never removed; a row's id is its place. */
  type Table = seq<Attachment>

  /** The first row that satisfies a unique column, or the length of the table. */
  function FindHash(t: Table, sha: Text): (i: nat)
    ensures i <= |t| && (i < |t| ==> t[i].sha256 == sha)
    ensures forall j :: 0 <= j < i ==> t[j].sha256 != sha
  {
    if t == [] || t[0].sha256 == sha then 0 else 1 + FindHash(t[1..], sha)
  }

  function FindKey(t: Table, key: Text): (i: nat)
    ensures i <= |t| && (i < |t| ==> t[i].stableKey == Some(key))
    ensures forall j :: 0 <= j < i ==> t[j].stableKey != Some(key)
  {
    if t == [] || t[0].stableKey == Some(key) then 0 else 1 + FindKey(t[1..], key)
  }

  function Reconcile(prior: Option<Availability>, observed: Availability): Availability {
    if prior == Some(Available) then Available
    else if prior == Some(Unsafe) && observed != Available then Unsafe
    else observed
  }

  /** An available file without a CAS key is not resolved. */
  function ObservedState(o: Observed): Availability {
    if o.availability.Available? && o.casKey.None? then Unresolved else o.availability
  }

  function CasKeyAfter(prior: Option<Attachment>, o: Observed): Option<Text> {
    if prior.Some? && prior.value.availability.Available? then prior.value.casKey
    else if ObservedState(o).Available? then o.casKey
    else if prior.Some? then prior.value.casKey else None
  }

  function Updated(prior: Attachment, o: Observed): Attachment {
    var casKey := CasKeyAfter(Some(prior), o);
    Attachment(if prior.stableKey.Some? then prior.stableKey else Some(o.stableKey),
               if prior.availability.Available? then prior.sha256 else o.sha256,
               Reconcile(Some(prior.availability), ObservedState(o)),
               if casKey.Some? then casKey else prior.casKey)
  }

  function Created(o: Observed): Attachment {
    Attachment(Some(o.stableKey), o.sha256, Reconcile(None, ObservedState(o)), CasKeyAfter(None, o))
  }

  /** The row that an observation updates, or the length of the table for a new one. */
  function Prior(t: Table, o: Observed): (i: nat)
    ensures i <= |t|
  {
    if FindHash(t, o.sha256) < |t| then FindHash(t, o.sha256) else FindKey(t, o.stableKey)
  }

  /** The unique indexes on the content hash and on the stable key. */
  predicate Unique(t: Table) {
    && (forall i, j :: 0 <= i < j < |t| ==> t[i].sha256 != t[j].sha256)
    && (forall i, j :: 0 <= i < j < |t| ==> t[i].stableKey.None? || t[i].stableKey != t[j].stableKey)
  }

  function Written(t: Table, o: Observed): Table {
    var i := Prior(t, o);
    if i < |t| then t[i := Updated(t[i], o)] else t + [Created(o)]
  }

  /** None when the database refuses the update, and with it the whole import. */
  function Observe(t: Table, o: Observed): Option<Table> {
    if Unique(Written(t, o)) then Some(Written(t, o)) else None
  }

  class AttachmentStore {
    var rows: Table

    constructor ()
      ensures rows == []
    {
      rows := [];
    }

    /** `importAttachment` up to its message link. */
    method ImportAttachment(o: Observed) returns (row: nat)
      modifies this
      ensures rows == Written(old(rows), o)
      ensures row < |rows| && |old(rows)| <= |rows|
      ensures forall i :: 0 <= i < |old(rows)| && i != row ==> rows[i] == old(rows)[i]
      ensures rows[row].sha256 == o.sha256 || (rows[row].availability.Available? && rows[row].stableKey == Some(o.stableKey))
    {
      var byStableKey := FindKey(rows, o.stableKey);
      var byHash := FindHash(rows, o.sha256);
      row := if byHash < |rows| then byHash else byStableKey;
      var state := ObservedState(o);
      if row == |rows| {
        rows := rows + [Attachment(Some(o.stableKey), o.sha256, state, if state.Available? then o.casKey else None)];
      } else {
        var prior := rows[row];
        var availability := Reconcile(Some(prior.availability), state);
        var casKey := if prior.availability.Available? then prior.casKey
                      else if state.Available? then o.casKey else prior.casKey;
        if prior.sha256 != o.sha256 && !prior.availability.Available? {
          rows := rows[row := rows[row].(sha256 := o.sha256)];
        }
        if prior.stableKey.None? {
          rows := rows[row := rows[row].(stableKey := Some(o.stableKey))];
        }
        rows := rows[row := rows[row].(availability := availability, casKey := if casKey.Some? then casKey else prior.casKey)];
      }
    }
  }

  /** Available bytes are owned bytes, and only they are. */
  predicate Owned(t: Table) {
    forall i :: 0 <= i < |t| ==> (t[i].availability.Available? <==> t[i].casKey.Some?)
  }

  /** Exactly when an observation is refused: its hash belongs to a row without a logical key,
      and its logical key to another row. */
  lemma RefusedExactly(t: Table, o: Observed)
    requires Unique(t)
    ensures Observe(t, o).None? <==>
            var h := FindHash(t, o.sha256);
            h < |t| && t[h].stableKey.None? && FindKey(t, o.stableKey) < |t|
  {
    var h, k, i := FindHash(t, o.sha256), FindKey(t, o.stableKey), Prior(t, o);
    var t' := Written(t, o);
    if h < |t| && t[h].stableKey.None? && k < |t| {
      assert t'[h].stableKey == t'[k].stableKey == Some(o.stableKey);
      assert !Unique(t');
    } else {
      forall a, b | 0 <= a < b < |t'| ensures t'[a].sha256 != t'[b].sha256
      {
        if a < |t| && b < |t| && a != i && b != i {
          assert t'[a] == t[a] && t'[b] == t[b];
        }
      }
    }
  }

  lemma ObserveKeepsOwned(t: Table, o: Observed)
    requires Owned(t)
    ensures Owned(Written(t, o))
  {
  }

  /** What one observation leaves of an existing row: owned bytes for ever, an unsafe mark until
      the bytes are owned. */
  lemma RowsAreFrozen(t: Table, o: Observed, i: nat)
    requires i < |t|
    ensures var r := Written(t, o)[i];
            && (t[i].availability.Available? ==> r.availability.Available? && r.sha256 == t[i].sha256
                                                 && (t[i].casKey.Some? ==> r.casKey == t[i].casKey))
            && (t[i].availability.Unsafe? ==> r.availability.Unsafe? || r.availability.Available?)
            && (t[i].stableKey.Some? ==> r.stableKey == t[i].stableKey)
  {
  }

  function ObserveAll(t: Table, os: seq<Observed>): Option<Table> {
    if os == [] then Some(t)
    else
      match ObserveAll(t, os[..|os| - 1])
      case None => None
      case Some(before) => Observe(before, os[|os| - 1])
  }

  predicate Keyed(t: Table) {
    forall i :: 0 <= i < |t| ==> t[i].stableKey.Some?
  }

  /** Any sequence of observations is accepted by an archive in which every row has a logical
      key, and keeps its hashes unique and its available bytes owned. */
  lemma {:induction false} EverySequenceIsAccepted(t: Table, os: seq<Observed>)
    requires Unique(t) && Owned(t) && Keyed(t)
    ensures ObserveAll(t, os).Some?
    ensures var t' := ObserveAll(t, os).value; Unique(t') && Owned(t') && Keyed(t') && |t| <= |t'|
  {
    if os != [] {
      EverySequenceIsAccepted(t, os[..|os| - 1]);
      var before := ObserveAll(t, os[..|os| - 1]).value;
      RefusedExactly(before, os[|os| - 1]);
      ObserveKeepsOwned(before, os[|os| - 1]);
    }
  }

  /** Once available, a row keeps its hash, its CAS key and its state for ever; an unsafe one is
      unsafe until it is available. */
  lemma {:induction false} AvailableForEver(t: Table, os: seq<Observed>, i: nat)
    requires Unique(t) && Owned(t) && Keyed(t) && i < |t|
    ensures ObserveAll(t, os).Some? && i < |ObserveAll(t, os).value|
    ensures var r := ObserveAll(t, os).value[i];
            && (t[i].availability.Available? ==> r.availability.Available? && r.sha256 == t[i].sha256 && r.casKey == t[i].casKey)
            && (t[i].availability.Unsafe? ==> r.availability.Unsafe? || r.availability.Available?)
  {
    EverySequenceIsAccepted(t, os);
    if os != [] {
      AvailableForEver(t, os[..|os| - 1], i);
      EverySequenceIsAccepted(t, os[..|os| - 1]);
      RowsAreFrozen(ObserveAll(t, os[..|os| - 1]).value, os[|os| - 1], i);
    }
  }

  // ------------------------------------------------------------ what a row shows

  /** The observation brings bytes that the archive has stored. */
  predicate BringsBytes(o: Observed) {
    o.availability == Available && o.casKey != None
  }

  /** What one observation leaves of the row that it is about. */
  predicate RowTold(prior: Option<Attachment>, r: Attachment, o: Observed) {
    var had := prior != None && prior.value.availability == Available;
    && (r.availability == Available <==> had || BringsBytes(o))
    && (!had && !BringsBytes(o) && prior != None && prior.value.availability == Unsafe ==> r.availability == Unsafe)
    && (!had && !BringsBytes(o) && !(prior != None && prior.value.availability == Unsafe) ==>
          r.availability == (if o.availability == Available then Unresolved else o.availability))
    && r.stableKey == (if prior != None && prior.value.stableKey != None then prior.value.stableKey else Some(o.stableKey))
    && r.sha256 == (if had then prior.value.sha256 else o.sha256)
    && r.casKey == (if !had && BringsBytes(o) then o.casKey else if prior != None then prior.value.casKey else None)
  }

  lemma ObservationTells(t: Table, o: Observed)
    ensures var i, t' := Prior(t, o), Written(t, o);
            && i < |t'| && RowTold(if i < |t| then Some(t[i]) else None, t'[i], o)
            && (forall j :: 0 <= j < |t| && j != i ==> t'[j] == t[j])
            && |t'| == (if i < |t| then |t| else |t| + 1)
  {
    if FindHash(t, o.sha256) == |t| && FindKey(t, o.stableKey) == |t| {
      assert Prior(t, o) == |t|;
    }
  }

  /** The k-th observation of the sequence is about row i: the row has its hash, or, where none
      has, its key. */
  predicate Concerns(t: Table, os: seq<Observed>, k: int, i: nat) {
    && 0 <= k < |os| && ObserveAll(t, os[..k]).Some?
    && var before := ObserveAll(t, os[..k]).value;
       if exists j :: 0 <= j < |before| && before[j].sha256 == os[k].sha256
       then i < |before| && before[i].sha256 == os[k].sha256
       else if exists j :: 0 <= j < |before| && before[j].stableKey == Some(os[k].stableKey)
       then i < |before| && before[i].stableKey == Some(os[k].stableKey)
       else i == |before|
  }

  lemma ConcernsExactly(t: Table, o: Observed, i: nat)
    requires Unique(t)
    ensures Prior(t, o) == i <==>
            if exists j :: 0 <= j < |t| && t[j].sha256 == o.sha256 then i < |t| && t[i].sha256 == o.sha256
            else if exists j :: 0 <= j < |t| && t[j].stableKey == Some(o.stableKey) then i < |t| && t[i].stableKey == Some(o.stableKey)
            else i == |t|
  {
    var h, k := FindHash(t, o.sha256), FindKey(t, o.stableKey);
    if h < |t| {
      assert t[h].sha256 == o.sha256;
    } else if k < |t| {
      assert t[k].stableKey == Some(o.stableKey);
    }
  }

  /** The k-th observation brings the row its bytes. */
  predicate BringsAt(t: Table, os: seq<Observed>, k: int, i: nat) {
    Concerns(t, os, k, i) && BringsBytes(os[k])
  }

  lemma BringsBefore(t: Table, os: seq<Observed>, n: nat, k: int, i: nat)
    requires 0 <= k < n <= |os|
    ensures BringsAt(t, os, k, i) <==> BringsAt(t, os[..n], k, i)
  {
    assert os[..n][..k] == os[..k] && os[..n][k] == os[k];
  }

  ghost predicate BroughtBytes(t: Table, os: seq<Observed>, i: nat) {
    exists k :: 0 <= k < |os| && BringsAt(t, os, k, i)
  }

  lemma {:induction false} BroughtEarlier(t: Table, os: seq<Observed>, n: nat, i: nat)
    requires n <= |os|
    ensures BroughtBytes(t, os[..n], i) <==> exists k :: 0 <= k < n && BringsAt(t, os, k, i)
  {
    forall k | 0 <= k < n ensures BringsAt(t, os, k, i) <==> BringsAt(t, os[..n], k, i) {
      BringsBefore(t, os, n, k, i);
    }
  }

  lemma {:induction false} BroughtWithLast(t: Table, os: seq<Observed>, i: nat)
    requires os != []
    ensures BroughtBytes(t, os, i) <==> BroughtBytes(t, os[..|os| - 1], i) || BringsAt(t, os, |os| - 1, i)
  {
    BroughtEarlier(t, os, |os| - 1, i);
  }

  /** After any sequence of observations a row is available exactly when it was, or one about it has
      brought stored bytes. */
  lemma {:induction false} AvailableExactly(t: Table, os: seq<Observed>, i: nat)
    requires Unique(t) && Owned(t) && Keyed(t)
    ensures ObserveAll(t, os).Some?
    ensures i < |ObserveAll(t, os).value| ==>
              (ObserveAll(t, os).value[i].availability == Available
               <==> (i < |t| && t[i].availability == Available) || BroughtBytes(t, os, i))
    ensures i >= |ObserveAll(t, os).value| ==> i >= |t| && !BroughtBytes(t, os, i)
  {
    EverySequenceIsAccepted(t, os);
    if os != [] {
      var n := |os| - 1;
      AvailableExactly(t, os[..n], i);
      EverySequenceIsAccepted(t, os[..n]);
      var before := ObserveAll(t, os[..n]).value;
      BroughtWithLast(t, os, i);
      ConcernsExactly(before, os[n], i);
      ObservationTells(before, os[n]);
    }
  }
}
