/** The background work of db_impl.cc takes only steps that the engine machine allows. */
module Background {
  import opened Keys
  import opened Reads
  import opened Lsm
  import opened DropRule
  import opened Pick
  import opened Engine
  import opened EngineProofs
  import Overlap

  lemma StoredKeysAreKeyed(s: State, v: seq<seq<File>>)
    requires Inv(s) && Lists(v, s.levels)
    ensures forall i :: 0 <= i < NUM_LEVELS ==> Keyed(v[i])
  {
    forall i, f | 0 <= i < NUM_LEVELS && f in v[i]
      ensures f.entries[|f.entries| - 1].sequence <= MAX_SEQUENCE
    {
      var e := f.entries[|f.entries| - 1];
      assert f in s.levels[i] && e in f.entries;
      assert e in AllContents(s.levels) && e in Live(s);
    }
  }

  /** CompactMemTable: WriteLevel0Table, the choice of a level, and LogAndApply. */
  method CompactMemTable(ghost s: State, v: seq<seq<File>>, imm: seq<Entry>, number: nat, size: nat, maxFileSize: nat)
    returns (level: nat, file: File, ghost t: State)
    requires Inv(s) && Lists(v, s.levels) && imm != [] && Sorted(imm)
    requires s.imm == Some(EntrySet(imm)) && number == s.nextFile
    ensures file.entries == imm && file.number == number && file.size == size
    ensures level <= MAX_MEM_COMPACT_LEVEL && (level > 0 ==> ClearTo(s.levels, level, file))
    ensures Next(s, Flush(level, file), t) && Inv(t)
  {
    StoredKeysAreKeyed(s, v);
    file := Table(number, size, imm);
    level := PickLevelForMemTableOutput(v, Overlap.Lo(file), Overlap.Hi(file), maxFileSize);
    t := s.(imm := None, levels := s.levels[level := s.levels[level] + {file}], nextFile := s.nextFile + 1);
    forall i, g | 0 <= i <= level && g in s.levels[i] && level > 0
      ensures !Overlap.Overlaps(file, g)
    {
      if i > 0 {
        assert Passable(v, i, Overlap.Lo(file), Overlap.Hi(file), maxFileSize);
      }
      assert g in v[i] && Clear(v[i], Some(Overlap.Lo(file)), Some(Overlap.Hi(file)));
    }
    FlushKeepsInv(s, level, file, t);
  }

  /** The choice of inputs in BackgroundCompaction; it is a legal start if it is closed. */
  method StartCompaction(ghost s: State, v: seq<seq<File>>, level: nat, picked: File, ghost snapshot: nat, maxFileSize: nat)
    returns (in0: seq<File>, in1: seq<File>, c: Compaction, ghost j: Job)
    requires Inv(s) && s.job.None? && Lists(v, s.levels) && level + 1 < NUM_LEVELS && picked in v[level]
    requires OldestSnapshot(s, snapshot)
    ensures picked in in0 && j == Job(level, FileSet(in0), FileSet(in1), snapshot, s.levels)
    ensures Closed(s.levels, level, FileSet(in0), FileSet(in1)) ==> Next(s, BeginCompaction(j), s.(job := Some(j)))
    ensures c.Valid() && c.asked == None && c.level == level && c.levels == s.levels && fresh(c) && fresh(c.levelPtrs)
  {
    in0, in1 := PickCompaction(v, s.levels, level, picked, maxFileSize);
    j := Job(level, FileSet(in0), FileSet(in1), snapshot, s.levels);
    c := new Compaction(level, v, s.levels);
  }

  /** Cutting a sorted sequence gives sorted pieces, one before the other. */
  lemma {:induction false} PiecesOfSorted(outputs: seq<seq<Entry>>)
    requires Sorted(Flatten(outputs)) && forall i :: 0 <= i < |outputs| ==> outputs[i] != []
    ensures forall i :: 0 <= i < |outputs| ==> Sorted(outputs[i])
    ensures forall i, k :: 0 <= i < k < |outputs| ==>
              Before(KeyOf(outputs[i][|outputs[i]| - 1]), KeyOf(outputs[k][0]))
    ensures forall e :: e in Flatten(outputs) <==> exists i :: 0 <= i < |outputs| && e in outputs[i]
  {
    FlattenHolds(outputs);
    if outputs != [] {
      var n := |outputs| - 1;
      var front := Flatten(outputs[..n]);
      SortedParts(front, outputs[n]);
      PiecesOfSorted(outputs[..n]);
      forall i | 0 <= i < n
        ensures Sorted(outputs[i]) && Before(KeyOf(outputs[i][|outputs[i]| - 1]), KeyOf(outputs[n][0]))
      {
        assert outputs[..n][i] == outputs[i];
        EarlierPiece(outputs, i);
      }
      forall i, k | 0 <= i < k < n
        ensures Before(KeyOf(outputs[i][|outputs[i]| - 1]), KeyOf(outputs[k][0]))
      {
        assert outputs[..n][i] == outputs[i] && outputs[..n][k] == outputs[k];
      }
    }
  }

  lemma EarlierPiece(outputs: seq<seq<Entry>>, i: nat)
    requires i < |outputs| - 1 && outputs[i] != []
    ensures outputs[i][|outputs[i]| - 1] in Flatten(outputs[..|outputs| - 1])
  {
    FlattenHolds(outputs[..|outputs| - 1]);
    assert outputs[..|outputs| - 1][i] == outputs[i];
  }

  lemma SortedParts(a: seq<Entry>, b: seq<Entry>)
    requires Sorted(a + b)
    ensures Sorted(a) && Sorted(b) && forall x, y :: x in a && y in b ==> Before(KeyOf(x), KeyOf(y))
  {
    assert forall i :: 0 <= i < |a| ==> (a + b)[i] == a[i];
    assert forall i :: 0 <= i < |b| ==> (a + b)[|a| + i] == b[i];
  }

  lemma {:induction false} FlattenHolds(outputs: seq<seq<Entry>>)
    ensures forall e :: e in Flatten(outputs) <==> exists i :: 0 <= i < |outputs| && e in outputs[i]
  {
    if outputs != [] {
      var n := |outputs| - 1;
      FlattenHolds(outputs[..n]);
      forall e
        ensures e in Flatten(outputs) <==> exists i :: 0 <= i < |outputs| && e in outputs[i]
      {
        if i :| 0 <= i < n && e in outputs[..n][i] {
          assert e in outputs[i];
        }
        if i :| 0 <= i < n && e in outputs[i] {
          assert e in outputs[..n][i];
        }
      }
    }
  }

  /** The output files hold the pieces, in order and apart. */
  lemma FilesOfPieces(outputs: seq<seq<Entry>>, files: seq<File>)
    requires Sorted(Flatten(outputs)) && |files| == |outputs|
    requires forall i :: 0 <= i < |outputs| ==> files[i].entries == outputs[i]
    ensures OutputsOf(files, EntrySet(Flatten(outputs)))
  {
    PiecesOfSorted(outputs);
    forall i, k | 0 <= i < k < |files|
      ensures Before(Largest(files[i]), Smallest(files[k]))
    {
      assert files[i].entries == outputs[i] && files[k].entries == outputs[k];
    }
    PiecesContents(outputs, files);
  }

  lemma PiecesContents(outputs: seq<seq<Entry>>, files: seq<File>)
    requires |files| == |outputs|
    requires forall i :: 0 <= i < |outputs| ==> files[i].entries == outputs[i]
    requires forall e :: e in Flatten(outputs) <==> exists i :: 0 <= i < |outputs| && e in outputs[i]
    ensures Contents(FileSet(files)) == EntrySet(Flatten(outputs))
  {
    forall e | e in Flatten(outputs)
      ensures e in Contents(FileSet(files))
    {
      var i :| 0 <= i < |outputs| && e in outputs[i];
      assert files[i] in FileSet(files) && e in files[i].entries;
    }
    forall e | e in Contents(FileSet(files))
      ensures e in Flatten(outputs)
    {
      var f: File :| f in files && e in f.entries;
      var i :| 0 <= i < |files| && files[i] == f;
      assert e in outputs[i];
    }
  }

  method MakeFiles(outputs: seq<seq<Entry>>, first: nat, sizes: nat -> nat) returns (files: seq<File>)
    requires Sorted(Flatten(outputs)) && (forall o :: o in outputs ==> o != [])
    ensures |files| == |outputs| && OutputsOf(files, EntrySet(Flatten(outputs)))
    ensures forall i :: 0 <= i < |files| ==> files[i].number == first + i && files[i].size == sizes(i)
  {
    assert forall i :: 0 <= i < |outputs| ==> outputs[i] in outputs;
    PiecesOfSorted(outputs);
    files := [];
    for i := 0 to |outputs|
      invariant |files| == i
      invariant forall k :: 0 <= k < i ==> files[k] == Table(first + k, sizes(k), outputs[k])
    {
      var file: File := Table(first + i, sizes(i), outputs[i]);
      files := files + [file];
    }
    FilesOfPieces(outputs, files);
  }

  /** DoCompactionWork followed by InstallCompactionResults, in whatever state later writes,
      flushes and snapshots have led to since the compaction began. */
  method FinishCompaction(ghost s: State, c: Compaction, input: seq<Entry>, snapshot: nat,
                          stopBefore: seq<bool>, full: seq<bool>, first: nat, sizes: nat -> nat)
    returns (files: seq<File>, ghost t: State)
    requires Inv(s) && s.job.Some? && snapshot == s.job.value.snapshot && first >= s.nextFile
    requires c.Valid() && c.asked == None && c.level == s.job.value.level && c.levels == s.job.value.base
    requires Sorted(input) && EntrySet(input) == Contents(s.job.value.in0 + s.job.value.in1)
    requires |stopBefore| == |input| == |full|
    modifies c`asked, c.levelPtrs
    ensures Next(s, InstallCompaction(files, first + |files|), t) && Inv(t)
  {
    ghost var j := s.job.value;
    InputIsUnique(s, input);
    var outputs := DoCompactionWork(c, input, snapshot, stopBefore, full);
    files := MakeFiles(outputs, first, sizes);
    t := s.(levels := Relocate(s.levels, j.level, j.in0, j.in1, FileSet(files)), nextFile := first + |files|,
            job := None, floor := if j.snapshot > s.floor then j.snapshot else s.floor);
    InstallKeepsInv(s, files, first + |files|, t);
  }

  lemma InputIsUnique(s: State, input: seq<Entry>)
    requires Inv(s) && s.job.Some?
    requires EntrySet(input) == Contents(s.job.value.in0 + s.job.value.in1)
    ensures Unique(EntrySet(input)) && s.job.value.snapshot < MAX_SEQUENCE
  {
    var j := s.job.value;
    ContentsAfterRelocate(s.levels, j.level, j.in0, j.in1, {});
    assert forall e :: e in EntrySet(input) ==> e in Live(s);
  }
}
