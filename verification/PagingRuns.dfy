/** What a load returns over a whole run of page faults, evictions and accesses, told from the events alone. */
module PagingRuns {
  import opened Wrappers
  import opened Storage
  import opened PagingState
  import opened Paging

  /** Memory as the first i events leave it. */
  function ViewAt(m: View, files: Files, events: seq<Event>, i: nat): View
    requires AllWellFormed(files, events) && i <= |events|
  {
    ReferenceRun(m, files, events[..i]).0
  }

  /** What the run shows at event i. */
  function SeenAt(m: View, files: Files, events: seq<Event>, i: nat): Option<byte>
    requires AllWellFormed(files, events) && i < |events|
  {
    ReferenceRun(m, files, events).1[i]
  }

  lemma {:induction false} StepAt(m: View, files: Files, events: seq<Event>, i: nat)
    requires AllWellFormed(files, events) && i < |events|
    ensures WellFormed(files, events[i])
    ensures (ViewAt(m, files, events, i + 1), SeenAt(m, files, events, i)) == Reference(ViewAt(m, files, events, i), files, events[i])
  {
    ReferenceStep(m, files, events, i);
    SeenBefore(m, files, events, i + 1, i);
  }

  lemma {:induction false} SeenBefore(m: View, files: Files, events: seq<Event>, n: nat, i: nat)
    requires AllWellFormed(files, events) && i < n <= |events|
    ensures SeenAt(m, files, events, i) == ReferenceRun(m, files, events[..n]).1[i]
    decreases |events| - n
  {
    if n == |events| {
      assert events[..n] == events;
    } else {
      ReferenceStep(m, files, events, n);
      SeenBefore(m, files, events, n + 1, i);
    }
  }

  /** Event i is a store at ofs of page k that went through. */
  predicate StoresAt(m: View, files: Files, events: seq<Event>, i: nat, k: Key, ofs: nat)
    requires AllWellFormed(files, events) && i < |events|
  {
    var e := events[i];
    e.Access? && e.key == k && e.ofs == ofs && e.write.Some? && SeenAt(m, files, events, i).Some?
  }

  /** No store to ofs of page k goes through from event j up to event i. */
  ghost predicate Unstored(m: View, files: Files, events: seq<Event>, j: nat, i: nat, k: Key, ofs: nat)
    requires AllWellFormed(files, events) && i <= |events|
  {
    forall l: nat | j <= l < i :: !StoresAt(m, files, events, l, k, ofs)
  }

  /** Only a mapping of page k, or an access that may grow the stack to it, brings it into being. */
  predicate Creates(e: Event, k: Key) {
    (e.Map? && e.key == k) || (e.Access? && e.key == k && e.stackOk)
  }

  /** Page k does not exist before event j. */
  ghost predicate NewAt(m: View, events: seq<Event>, j: nat, k: Key) {
    j < |events| && k !in m && Creates(events[j], k) && forall l: nat | l < j :: !Creates(events[l], k)
  }

  /** The byte at ofs of a page of which e is the first entry. */
  function FirstByte(files: Files, e: Spte, ofs: nat): byte
    requires Mappable(files, e)
  {
    if e.InFile? && e.pos + ofs < |files[e.file]| then files[e.file][e.pos + ofs] else 0
  }

  /** From event j on, the byte at ofs of page k is v until a store to it goes through. */
  ghost predicate Sets(m: View, files: Files, events: seq<Event>, j: nat, k: Key, ofs: nat, v: byte)
    requires AllWellFormed(files, events) && j < |events|
  {
    if StoresAt(m, files, events, j, k, ofs) then events[j].write == Some(v)
    else NewAt(m, events, j, k) && v == if events[j].Map? then FirstByte(files, events[j].entry, ofs) else 0
  }

  lemma {:induction false} StillAbsent(m: View, files: Files, events: seq<Event>, i: nat, k: Key)
    requires AllWellFormed(files, events) && i <= |events| && k !in m && forall l: nat | l < i :: !Creates(events[l], k)
    ensures k !in ViewAt(m, files, events, i)
  {
    if i == 0 {
      assert events[..0] == [];
    } else {
      StillAbsent(m, files, events, i - 1, k);
      StepAt(m, files, events, i - 1);
      assert !Creates(events[i - 1], k);
    }
  }

  /** Page k shows v at ofs. */
  predicate Shows(m: View, k: Key, ofs: nat, v: byte) {
    k in m && ofs < PGSIZE && m[k].page[ofs] == v
  }

  lemma ShowsOneStep(m: View, files: Files, e: Event, k: Key, ofs: nat, v: byte)
    requires WellFormed(files, e) && Shows(m, k, ofs, v)
    requires e.Access? && e.key == k && e.ofs == ofs && e.write.Some? ==> Reference(m, files, e).1.None?
    ensures Shows(Reference(m, files, e).0, k, ofs, v) && Reference(m, files, e).0[k].writable == m[k].writable
  {
  }

  lemma {:induction false} ShowsStill(m: View, files: Files, events: seq<Event>, j: nat, i: nat, k: Key, ofs: nat, v: byte)
    requires AllWellFormed(files, events) && j <= i <= |events| && Unstored(m, files, events, j, i, k, ofs)
    requires Shows(ViewAt(m, files, events, j), k, ofs, v)
    ensures Shows(ViewAt(m, files, events, i), k, ofs, v)
  {
    if i > j {
      ShowsStill(m, files, events, j, i - 1, k, ofs, v);
      StepAt(m, files, events, i - 1);
      assert !StoresAt(m, files, events, i - 1, k, ofs);
      ShowsOneStep(ViewAt(m, files, events, i - 1), files, events[i - 1], k, ofs, v);
    }
  }

  lemma NewShows(m: View, files: Files, e: Event, k: Key, ofs: nat)
    requires WellFormed(files, e) && k !in m && Creates(e, k) && ofs < PGSIZE
    requires e.Access? ==> e.write.None? || e.ofs != ofs
    ensures Shows(Reference(m, files, e).0, k, ofs, if e.Map? then FirstByte(files, e.entry, ofs) else 0)
  {
    assert ZeroPage()[ofs] == 0;
  }

  lemma SetsShows(m: View, files: Files, events: seq<Event>, j: nat, k: Key, ofs: nat, v: byte)
    requires AllWellFormed(files, events) && j < |events| && ofs < PGSIZE && Sets(m, files, events, j, k, ofs, v)
    ensures Shows(ViewAt(m, files, events, j + 1), k, ofs, v)
  {
    StepAt(m, files, events, j);
    if !StoresAt(m, files, events, j, k, ofs) {
      StillAbsent(m, files, events, j, k);
      NewShows(ViewAt(m, files, events, j), files, events[j], k, ofs);
    }
  }

  /**
   * Whatever is faulted in, evicted, saved and brought back in between, a load returns the byte that the last store to
   * the same place of the same page left there; without one, the byte of the file the page was mapped from, and zero
   * past the end of the file, on a page of zeros and on a new page of the stack.
   */
  lemma LoadSees(m: View, files: Files, events: seq<Event>, j: nat, i: nat, k: Key, ofs: nat, v: byte)
    requires AllWellFormed(files, events) && j < i < |events|
    requires events[i].Access? && events[i].key == k && events[i].ofs == ofs && events[i].write.None?
    requires Sets(m, files, events, j, k, ofs, v) && Unstored(m, files, events, j + 1, i, k, ofs)
    ensures SeenAt(m, files, events, i) == Some(v)
  {
    SetsShows(m, files, events, j, k, ofs, v);
    ShowsStill(m, files, events, j + 1, i, k, ofs, v);
    StepAt(m, files, events, i);
  }

  /** A page that was there from the start, likewise. */
  lemma FirstLoadSees(m: View, files: Files, events: seq<Event>, i: nat, k: Key, ofs: nat)
    requires AllWellFormed(files, events) && i < |events| && k in m && ofs < PGSIZE
    requires events[i].Access? && events[i].key == k && events[i].ofs == ofs && events[i].write.None?
    requires Unstored(m, files, events, 0, i, k, ofs)
    ensures SeenAt(m, files, events, i) == Some(m[k].page[ofs])
  {
    assert events[..0] == [];
    ShowsStill(m, files, events, 0, i, k, ofs, m[k].page[ofs]);
    StepAt(m, files, events, i);
  }

  /** What page k lets its process do does not change once it is there. */
  lemma {:induction false} WritableStill(m: View, files: Files, events: seq<Event>, j: nat, i: nat, k: Key)
    requires AllWellFormed(files, events) && j <= i <= |events| && k in ViewAt(m, files, events, j)
    ensures k in ViewAt(m, files, events, i)
    ensures ViewAt(m, files, events, i)[k].writable == ViewAt(m, files, events, j)[k].writable
  {
    if i > j {
      WritableStill(m, files, events, j, i - 1, k);
      StepAt(m, files, events, i - 1);
    }
  }

  /** A store to a page goes through if and only if the page was mapped writable or is a page of the stack. */
  lemma StoreGoesThrough(m: View, files: Files, events: seq<Event>, j: nat, i: nat, k: Key)
    requires AllWellFormed(files, events) && j <= i < |events| && NewAt(m, events, j, k)
    requires events[i].Access? && events[i].key == k && events[i].write.Some?
    ensures SeenAt(m, files, events, i).Some? <==> events[j].Access? || events[j].entry.writable
  {
    StillAbsent(m, files, events, j, k);
    StepAt(m, files, events, j);
    if j < i {
      WritableStill(m, files, events, j + 1, i, k);
      StepAt(m, files, events, i);
    }
  }

  /** An access to a page that nothing has brought into being shows nothing. */
  lemma AbsentShowsNothing(m: View, files: Files, events: seq<Event>, i: nat, k: Key)
    requires AllWellFormed(files, events) && i < |events| && k !in m && events[i].Access? && events[i].key == k
    requires forall l: nat | l <= i :: !Creates(events[l], k)
    ensures SeenAt(m, files, events, i).None?
  {
    StillAbsent(m, files, events, i, k);
    StepAt(m, files, events, i);
    assert !Creates(events[i], k);
  }
}
