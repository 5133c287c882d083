/** Several files open at once, written in any order. */
module FileRuns {
  import opened Storage
  import opened FileLayout
  import opened FreeSectors
  import opened FileShape
  import opened GrowthCount
  import opened GrowthSteps
  import opened InodeGrowth
  import opened FileData
  import opened FileLife

  /** A write to one of the files. */
  datatype Op = Op(file: nat, w: Write)

  predicate AllSmall(ops: seq<Op>, n: nat) {
    forall k: nat | k < |ops| :: ops[k].file < n && ops[k].w.offset + |ops[k].w.buf| <= SINGLE_BYTES
  }

  /** What the plain byte sequence of file i becomes under a run of writes to all the files. */
  function ReplayOf(i: nat, bytes: seq<byte>, ops: seq<Op>): seq<byte> {
    if ops == [] then bytes
    else
      var last := ops[|ops| - 1];
      var before := ReplayOf(i, bytes, ops[..|ops| - 1]);
      if last.file == i then Written(before, last.w.offset, last.w.buf) else before
  }

  /** Two open files have no sector in common. */
  ghost predicate Separate(f: Inode, g: Inode)
    reads f, g
  {
    && f != g && f.sector != g.sector && f.sector !in g.alloc && g.sector !in f.alloc
    && forall x | x in f.alloc :: x !in g.alloc
  }

  ghost predicate AllOpen(fs: FileSystem, files: seq<Inode>)
    reads fs, fs.freeMap.words, files
  {
    && (forall i: nat | i < |files| :: SmallFile(fs, files[i]))
    && (forall i: nat, j: nat | i < |files| && j < |files| && i != j :: Separate(files[i], files[j]))
  }

  ghost function Content(fs: FileSystem, f: Inode): seq<byte>
    reads fs, f
  {
    Bytes(fs.disk, f.alloc, f.data.length)
  }

  /** Every file but x reads as its own writes describe. */
  ghost predicate Replayed(fs: FileSystem, files: seq<Inode>, was: seq<seq<byte>>, ops: seq<Op>, x: nat)
    reads fs, files
  {
    |was| == |files| && forall i: nat | i < |files| && i != x :: Content(fs, files[i]) == ReplayOf(i, was[i], ops)
  }

  /** The sectors that the first n files come to need for a run of writes. */
  function Demand(n: nat, was: seq<seq<byte>>, ops: seq<Op>): int
    requires n <= |was|
  {
    if n == 0 then 0
    else Demand(n - 1, was, ops) + Need(|was[n - 1]|, |ReplayOf(n - 1, was[n - 1], ops)|)
  }

  lemma {:induction false} NoDemand(n: nat, was: seq<seq<byte>>)
    requires n <= |was|
    ensures Demand(n, was, []) == 0
  {
    if n > 0 {
      NoDemand(n - 1, was);
    }
  }

  /** One more write adds what its file grows by. */
  lemma {:induction false} DemandMore(n: nat, was: seq<seq<byte>>, ops: seq<Op>, op: Op)
    requires n <= |was| && op.file < |was|
    ensures Demand(n, was, ops + [op]) == Demand(n, was, ops) + if op.file < n then Demands(was, ops, op) else 0
  {
    if n > 0 {
      DemandMore(n - 1, was, ops, op);
      assert (ops + [op])[..|ops|] == ops;
    }
  }

  /** The sectors that a write after ops needs. */
  function Demands(was: seq<seq<byte>>, ops: seq<Op>, op: Op): int
    requires op.file < |was|
  {
    Need(|ReplayOf(op.file, was[op.file], ops)|, |ReplayOf(op.file, was[op.file], ops + [op])|)
  }

  lemma DemandIsPositive(was: seq<seq<byte>>, ops: seq<Op>, op: Op)
    requires op.file < |was|
    ensures Demands(was, ops, op) >= 0
  {
    assert (ops + [op])[..|ops|] == ops;
    var n := |ReplayOf(op.file, was[op.file], ops)|;
    NeedGrows(n, n, |ReplayOf(op.file, was[op.file], ops + [op])|);
  }

  lemma {:induction false} DemandGrows(was: seq<seq<byte>>, ops: seq<Op>, k: nat)
    requires k <= |ops| && AllSmall(ops, |was|)
    ensures Demand(|was|, was, ops[..k]) <= Demand(|was|, was, ops)
    decreases |ops|
  {
    if k == |ops| {
      assert ops[..k] == ops;
    } else {
      var front, last := ops[..|ops| - 1], ops[|ops| - 1];
      DemandGrows(was, front, k);
      assert front[..k] == ops[..k] && front + [last] == ops;
      DemandMore(|was|, was, front, last);
      DemandIsPositive(was, front, last);
    }
  }

  lemma Starts(fs: FileSystem, files: seq<Inode>, was: seq<seq<byte>>, ops: seq<Op>)
    requires fs.Valid() && |was| == |files| && forall i: nat | i < |files| :: was[i] == Content(fs, files[i])
    ensures Took(fs.Bits(), fs.Bits(), []) && Replayed(fs, files, was, ops[..0], |files|)
  {
  }

  /** The write of one op, seen by all files. */
  method WriteTo(fs: FileSystem, files: seq<Inode>, op: Op, ghost was: seq<seq<byte>>, ghost ops: seq<Op>)
    returns (ok: bool, ghost t: seq<nat>)
    requires fs.Valid() && AllOpen(fs, files) && op.file < |files| == |was| && op.w.offset + |op.w.buf| <= SINGLE_BYTES
    requires Replayed(fs, files, was, ops, |files|)
    modifies fs, fs.freeMap.words, files
    ensures fs.Valid() && Took(old(fs.Bits()), fs.Bits(), t)
    ensures if ok then |t| == Demands(was, ops, op) else Scarce(old(fs.Bits()), Demands(was, ops, op))
    ensures Replayed(fs, files, was, ops + [op], if ok then |files| else op.file)
    ensures ok ==> AllOpen(fs, files)
  {
    hide Touches, Bytes, Written, FileOk, Owns, Need, Scarce, Took;
    ghost var f, b0, d0, a0, n0 := files[op.file], fs.Bits(), fs.disk, files[op.file].alloc, files[op.file].data;
    assert forall i: nat | i < |files| && i != op.file :: Separate(f, files[i]) && Separate(files[i], f);
    ok, t := WriteOne(fs, files[op.file], op.w);
    TouchesTook(b0, d0, fs.Bits(), fs.disk, f.sector, a0, t);
    forall i: nat | i < |files| && i != op.file
      ensures SmallFile(fs, files[i]) && Content(fs, files[i]) == old(Content(fs, files[i]))
    {
      assert old(Separate(f, files[i]));
      OtherFilesKept(b0, d0, fs.Bits(), fs.disk, f.sector, a0, t, files[i].data, files[i].sector, files[i].alloc);
    }
    forall i: nat | ok && i < |files| && i != op.file ensures Separate(files[i], f) && Separate(f, files[i]) {
      assert old(Separate(f, files[i]));
      OtherFilesKept(b0, d0, fs.Bits(), fs.disk, f.sector, a0, t, files[i].data, files[i].sector, files[i].alloc);
    }
    assert (ops + [op])[..|ops|] == ops;
    assert forall i: nat, j: nat | i < |files| && j < |files| && i != j :: old(Separate(files[i], files[j]));
    if ok {
      GrownBy(d0, n0, fs.disk, f.data, a0, t);
    }
  }

  /** A run that stops at write k. */
  lemma StopsShort(b0: seq<bool>, b1: seq<bool>, t: seq<nat>, was: seq<seq<byte>>, ops: seq<Op>, k: nat)
    requires k < |ops| && AllSmall(ops, |was|) && Took(b0, b1, t) && |t| == Demand(|was|, was, ops[..k])
    requires ops[k].file < |was| && Scarce(b1, Demands(was, ops[..k], ops[k]))
    ensures Scarce(b0, Demand(|was|, was, ops))
  {
    hide AllSmall, Took, Scarce, Demand, Demands;
    assert ops[..k] + [ops[k]] == ops[..k + 1];
    DemandMore(|was|, was, ops[..k], ops[k]);
    DemandGrows(was, ops, k + 1);
    ScarceAfter(b0, b1, t, Demands(was, ops[..k], ops[k]));
    ScarceMore(b0, |t| + Demands(was, ops[..k], ops[k]), Demand(|was|, was, ops));
  }

  /**
   * Any interleaving of writes to open files of at most 744 sectors.  The run is finished exactly if the device has the
   * sectors that the files come to need; it then takes just those, and each file reads as the plain byte sequence its own
   * writes describe.  Otherwise it stops at some write, and the files other than that one are still right.
   */
  method WriteFiles(fs: FileSystem, files: seq<Inode>, ops: seq<Op>) returns (done: nat, ghost t: seq<nat>)
    requires fs.Valid() && AllOpen(fs, files) && AllSmall(ops, |files|)
    modifies fs, fs.freeMap.words, files
    ensures done <= |ops| && fs.Valid() && Took(old(fs.Bits()), fs.Bits(), t)
    ensures var was := seq(|files|, i requires 0 <= i < |files| => old(Content(fs, files[i])));
            && (done < |ops| <==> Scarce(old(fs.Bits()), Demand(|files|, was, ops)))
            && (done == |ops| ==> AllOpen(fs, files) && Replayed(fs, files, was, ops, |files|) && |t| == Demand(|files|, was, ops))
            && (done < |ops| ==> Replayed(fs, files, was, ops[..done + 1], ops[done].file))
  {
    hide Bytes, Written, Need, Scarce, SmallFile, Separate, Took, Replayed, AllOpen, Demand, Demands;
    ghost var was, b0 := seq(|files|, i requires 0 <= i < |files| => old(Content(fs, files[i]))), fs.Bits();
    done, t := 0, [];
    assert Took(b0, b0, []) && Replayed(fs, files, was, ops[..0], |files|) by {
      Starts(fs, files, was, ops);
    }
    NoDemand(|was|, was);
    assert ops[..0] == [];
    while done < |ops|
      invariant 0 <= done <= |ops| && fs.Valid() && AllOpen(fs, files) && Took(b0, fs.Bits(), t)
      invariant Replayed(fs, files, was, ops[..done], |files|) && |t| == Demand(|was|, was, ops[..done])
    {
      assert ops[..done] + [ops[done]] == ops[..done + 1];
      var ok;
      ghost var u, b1 := [], fs.Bits();
      ok, u := WriteTo(fs, files, ops[done], was, ops[..done]);
      TookMore(b0, b1, fs.Bits(), t, u);
      if !ok {
        StopsShort(b0, b1, t, was, ops, done);
        t := t + u;
        return;
      }
      DemandMore(|was|, was, ops[..done], ops[done]);
      t, done := t + u, done + 1;
    }
    assert ops[..done] == ops;
    TakenWasFree(b0, fs.Bits(), t);
  }
}
