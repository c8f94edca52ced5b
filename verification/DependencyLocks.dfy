/** The walk over hash-locked requirement files and the agreement check across them. */
module DependencyLocks {
  import opened Wrappers
  import opened Counting

  /** A resolved path. */
  type Path = string

  /** A stripped line of a lockfile. `Pin` is an exact pin with its normalised name and the set of
      its sha256 digests; `trailing` says that other tokens follow it. */
  datatype Line =
    | Skipped
    | RequireHashes
    | Include(child: Path)
    | OtherOption
    | ForbiddenSource
    | NotPinned
    | Pin(name: string, version: string, hashes: set<string>, trailing: bool)

  type Files = map<Path, seq<Line>>

  datatype Requirement = Requirement(name: string, version: string, hashes: set<string>, file: Path, lineNo: nat)

  datatype Fault =
    | Unreadable(file: Path)
    | MissingNested(file: Path, lineNo: nat, child: Path)
    | UnsupportedOption(file: Path, lineNo: nat)
    | SourceForbidden(file: Path, lineNo: nat)
    | PinRequired(file: Path, lineNo: nat)
    | TrailingTokens(file: Path, lineNo: nat)
    | HashMissing(file: Path, lineNo: nat)
    | HashesNotRequired(file: Path)
    | Conflict(name: string)
    | EmptySet

  /** What a walk leaves: the files seen, and the requirements or the first fault. */
  datatype Visit = Visit(seen: set<Path>, rows: Result<seq<Requirement>, Fault>)

  function RowOf(file: Path, i: nat, line: Line): Requirement
    requires line.Pin?
  {
    Requirement(line.name, line.version, line.hashes, file, i)
  }

  /** The fault of line i by itself, if any. */
  function LineFault(fs: Files, file: Path, i: nat, line: Line): Option<Fault> {
    match line
    case Include(child) => if child in fs then None else Some(MissingNested(file, i, child))
    case OtherOption => Some(UnsupportedOption(file, i))
    case ForbiddenSource => Some(SourceForbidden(file, i))
    case NotPinned => Some(PinRequired(file, i))
    case Pin(_, _, hashes, trailing) =>
      if trailing then Some(TrailingTokens(file, i)) else if hashes == {} then Some(HashMissing(file, i)) else None
    case _ => None
  }

  lemma LeftShrinks(fs: Files, a: set<Path>, b: set<Path>)
    requires a <= b
    ensures |fs.Keys - b| <= |fs.Keys - a|
    ensures forall p :: p in fs && p !in a && p in b ==> |fs.Keys - b| < |fs.Keys - a|
  {
    SubsetSize(fs.Keys - b, fs.Keys - a);
    forall p | p in fs && p !in a && p in b ensures |fs.Keys - b| < |fs.Keys - a| {
      SubsetSize(fs.Keys - b, fs.Keys - a - {p});
    }
  }

  /** The depth-first walk from one file, skipping the files already seen. */
  function Walk(fs: Files, file: Path, seen: set<Path>): (v: Visit)
    ensures seen <= v.seen
    decreases |fs.Keys - seen|, 0
  {
    if file in seen then Visit(seen, Ok([]))
    else if file !in fs then Visit(seen + {file}, Err(Unreadable(file)))
    else
      LeftShrinks(fs, seen, seen + {file});
      var v := WalkLines(fs, file, seen + {file}, |fs[file]|);
      if v.rows.Ok? && RequireHashes !in fs[file] then Visit(v.seen, Err(HashesNotRequired(file))) else v
  }

  /** The walk through the first k lines of a file. */
  function WalkLines(fs: Files, file: Path, seen: set<Path>, k: nat): (v: Visit)
    requires file in fs && k <= |fs[file]|
    ensures seen <= v.seen
    decreases |fs.Keys - seen|, k
  {
    if k == 0 then Visit(seen, Ok([]))
    else
      var v := WalkLines(fs, file, seen, k - 1);
      var line := fs[file][k - 1];
      if v.rows.Err? then v
      else if LineFault(fs, file, k - 1, line).Some? then Visit(v.seen, Err(LineFault(fs, file, k - 1, line).value))
      else if line.Pin? then Visit(v.seen, Ok(v.rows.value + [RowOf(file, k - 1, line)]))
      else if line.Include? then
        LeftShrinks(fs, seen, v.seen);
        var below := Walk(fs, line.child, v.seen);
        Visit(below.seen, if below.rows.Err? then below.rows else Ok(v.rows.value + below.rows.value))
      else v
  }

  /** A fault ends the walk through its file. */
  lemma {:induction false} FaultStays(fs: Files, file: Path, seen: set<Path>, j: nat, k: nat)
    requires file in fs && j <= k <= |fs[file]|
    ensures WalkLines(fs, file, seen, j).rows.Err? ==> WalkLines(fs, file, seen, k) == WalkLines(fs, file, seen, j)
    decreases k - j
  {
    if j == k {
    } else {
      FaultStays(fs, file, seen, j, k - 1);
    }
  }

  /** What line i does to the walk of its file: it ends it with a fault, or the walk goes on. */
  lemma NextLine(fs: Files, file: Path, before: set<Path>, i: nat)
    requires file in fs && file !in before && i < |fs[file]|
    ensures var v, next := WalkLines(fs, file, before + {file}, i), WalkLines(fs, file, before + {file}, i + 1);
            var line, fault := fs[file][i], LineFault(fs, file, i, fs[file][i]);
            v.rows.Ok? ==>
              if fault.Some? then Walk(fs, file, before) == Visit(v.seen, Err(fault.value))
              else if line.Pin? then next == Visit(v.seen, Ok(v.rows.value + [RowOf(file, i, line)]))
              else if line.Include? then
                var below := Walk(fs, line.child, v.seen);
                if below.rows.Err? then Walk(fs, file, before) == below
                else next == Visit(below.seen, Ok(v.rows.value + below.rows.value))
              else next == v
  {
    FaultStays(fs, file, before + {file}, i + 1, |fs[file]|);
  }

  class Walker {
    const fs: Files
    var seen: set<Path>

    constructor (fs: Files)
      ensures this.fs == fs && seen == {}
    {
      this.fs := fs;
      seen := {};
    }

    /** `validate_lock`. */
    method ValidateLock(file: Path) returns (r: Result<seq<Requirement>, Fault>)
      modifies this
      ensures Visit(seen, r) == Walk(fs, file, old(seen))
      decreases |fs.Keys - seen|
    {
      if file in seen {
        return Ok([]);
      }
      ghost var before := seen;
      seen := seen + {file};
      if file !in fs {
        return Err(Unreadable(file));
      }
      LeftShrinks(fs, before, seen);
      ghost var start := seen;
      var requirements: seq<Requirement> := [];
      var requireHashes := false;
      var lines := fs[file];
      for i := 0 to |lines|
        invariant start <= seen
        invariant requireHashes <==> RequireHashes in lines[..i]
        invariant Visit(seen, Ok(requirements)) == WalkLines(fs, file, start, i)
      {
        NextLine(fs, file, before, i);
        match lines[i] {
          case Skipped =>
          case RequireHashes =>
            requireHashes := true;
          case Include(child) =>
            if child !in fs {
              return Err(MissingNested(file, i, child));
            }
            LeftShrinks(fs, start, seen);
            var below := ValidateLock(child);
            if below.Err? {
              return below;
            }
            requirements := requirements + below.value;
          case OtherOption =>
            return Err(UnsupportedOption(file, i));
          case ForbiddenSource =>
            return Err(SourceForbidden(file, i));
          case NotPinned =>
            return Err(PinRequired(file, i));
          case Pin(name, version, hashes, trailing) =>
            if trailing {
              return Err(TrailingTokens(file, i));
            }
            if hashes == {} {
              return Err(HashMissing(file, i));
            }
            requirements := requirements + [Requirement(name, version, hashes, file, i)];
        }
      }
      if !requireHashes {
        return Err(HashesNotRequired(file));
      }
      return Ok(requirements);
    }
  }

  // ---------------------------------------------------------------- what the walk visits

  predicate Includes(fs: Files, a: Path, b: Path) {
    a in fs && Include(b) in fs[a]
  }

  /** A chain of includes from a to b. */
  ghost predicate Trail(fs: Files, trail: seq<Path>, a: Path, b: Path) {
    && trail != [] && trail[0] == a && trail[|trail| - 1] == b
    && forall k :: 0 < k < |trail| ==> Includes(fs, trail[k - 1], trail[k])
  }

  ghost predicate Reachable(fs: Files, a: Path, b: Path) {
    exists trail :: Trail(fs, trail, a, b)
  }

  /** What may stand in a lockfile: an exact pin must carry a hash and nothing else. */
  predicate Acceptable(fs: Files, line: Line) {
    || line == Skipped || line == RequireHashes
    || (line.Include? && line.child in fs)
    || (line.Pin? && line.hashes != {} && !line.trailing)
  }

  ghost predicate WellFormed(fs: Files, file: Path) {
    file in fs && RequireHashes in fs[file] && forall i :: 0 <= i < |fs[file]| ==> Acceptable(fs, fs[file][i])
  }

  /** Line i of a file is the first that may not stand there. */
  ghost predicate FirstBad(fs: Files, file: Path, i: nat) {
    file in fs && i < |fs[file]| && !Acceptable(fs, fs[file][i]) && forall j :: 0 <= j < i ==> Acceptable(fs, fs[file][j])
  }

  /** A fault of a walk says what is wrong with a file: which line is the first bad one and why, that
      the file is absent, or that it never asks for hashes though all its lines may stand there. */
  ghost predicate Genuine(fs: Files, fault: Fault) {
    match fault
    case Unreadable(file) => file !in fs
    case MissingNested(file, i, child) => FirstBad(fs, file, i) && fs[file][i] == Include(child) && child !in fs
    case UnsupportedOption(file, i) => FirstBad(fs, file, i) && fs[file][i] == OtherOption
    case SourceForbidden(file, i) => FirstBad(fs, file, i) && fs[file][i] == ForbiddenSource
    case PinRequired(file, i) => FirstBad(fs, file, i) && fs[file][i] == NotPinned
    case TrailingTokens(file, i) => FirstBad(fs, file, i) && fs[file][i].Pin? && fs[file][i].trailing
    case HashMissing(file, i) => FirstBad(fs, file, i) && fs[file][i].Pin? && !fs[file][i].trailing && fs[file][i].hashes == {}
    case HashesNotRequired(file) =>
      file in fs && RequireHashes !in fs[file] && forall i :: 0 <= i < |fs[file]| ==> Acceptable(fs, fs[file][i])
    case _ => false
  }

  /** The file a fault of a walk is about. */
  function Culprit(fault: Fault): Path {
    match fault
    case Conflict(_) => ""
    case EmptySet => ""
    case _ => fault.file
  }

  ghost predicate IsRow(fs: Files, r: Requirement) {
    && r.file in fs && r.lineNo < |fs[r.file]|
    && var line := fs[r.file][r.lineNo];
    && line.Pin? && r.name == line.name && r.version == line.version && r.hashes == line.hashes
  }

  lemma ReachSelf(fs: Files, a: Path)
    ensures Reachable(fs, a, a)
  {
    assert Trail(fs, [a], a, a);
  }

  lemma ReachFurther(fs: Files, a: Path, b: Path, c: Path)
    requires Includes(fs, a, b) && Reachable(fs, b, c)
    ensures Reachable(fs, a, c)
  {
    var trail :| Trail(fs, trail, b, c);
    var longer := [a] + trail;
    forall k | 0 < k < |longer| ensures Includes(fs, longer[k - 1], longer[k]) {
      assert longer[k] == trail[k - 1];
      if k > 1 {
        assert longer[k - 1] == trail[k - 2];
      }
    }
    assert Trail(fs, longer, a, c);
  }

  /** A set that contains a and is closed under includes contains everything reachable from a. */
  lemma {:induction false} ClosedCovers(fs: Files, closed: set<Path>, trail: seq<Path>, a: Path, b: Path)
    requires a in closed && Trail(fs, trail, a, b)
    requires forall p, q :: p in closed && Includes(fs, p, q) ==> q in closed
    ensures b in closed
    decreases |trail|
  {
    if |trail| > 1 {
      assert Includes(fs, trail[0], trail[1]);
      var rest := trail[1..];
      forall k | 0 < k < |rest| ensures Includes(fs, rest[k - 1], rest[k]) {
        assert Includes(fs, trail[k], trail[k + 1]);
      }
      ClosedCovers(fs, closed, rest, trail[1], b);
    }
  }

  /** Files added by a walk that succeeds: they are well formed, and the walk went on to all they include. */
  ghost predicate Done(fs: Files, before: set<Path>, after: set<Path>) {
    forall p :: p in after && p !in before ==> WellFormed(fs, p) && forall q :: Includes(fs, p, q) ==> q in after
  }

  /** Everything a walk adds can be reached from the file it starts at. */
  ghost predicate Reached(fs: Files, file: Path, before: set<Path>, after: set<Path>) {
    forall p :: p in after && p !in before ==> Reachable(fs, file, p)
  }

  lemma {:induction false} WalkReaches(fs: Files, file: Path, seen: set<Path>)
    ensures Reached(fs, file, seen, Walk(fs, file, seen).seen)
    decreases |fs.Keys - seen|, 0
  {
    ReachSelf(fs, file);
    if file !in seen && file in fs {
      LeftShrinks(fs, seen, seen + {file});
      LinesReach(fs, file, seen + {file}, |fs[file]|);
    }
  }

  lemma {:induction false} LinesReach(fs: Files, file: Path, seen: set<Path>, k: nat)
    requires file in fs && k <= |fs[file]|
    ensures Reached(fs, file, seen, WalkLines(fs, file, seen, k).seen)
    decreases |fs.Keys - seen|, k
  {
    if k == 0 {
    } else {
      LinesReach(fs, file, seen, k - 1);
      var v, line := WalkLines(fs, file, seen, k - 1), fs[file][k - 1];
      if v.rows.Ok? && line.Include? && line.child in fs {
        LeftShrinks(fs, seen, v.seen);
        WalkReaches(fs, line.child, v.seen);
        assert Includes(fs, file, line.child);
        forall p | p in Walk(fs, line.child, v.seen).seen && p !in v.seen ensures Reachable(fs, file, p) {
          ReachFurther(fs, file, line.child, p);
        }
      }
    }
  }

  ghost predicate Covers(fs: Files, file: Path, k: nat, after: set<Path>)
    requires file in fs && k <= |fs[file]|
  {
    forall i :: 0 <= i < k ==> Acceptable(fs, fs[file][i]) && (fs[file][i].Include? ==> fs[file][i].child in after)
  }

  lemma {:induction false} WalkCompletes(fs: Files, file: Path, seen: set<Path>)
    ensures var v := Walk(fs, file, seen); v.rows.Ok? ==> file in v.seen && Done(fs, seen, v.seen)
    decreases |fs.Keys - seen|, 0
  {
    var v := Walk(fs, file, seen);
    if file !in seen && file in fs && v.rows.Ok? {
      LeftShrinks(fs, seen, seen + {file});
      LinesComplete(fs, file, seen + {file}, |fs[file]|);
      forall q | Includes(fs, file, q) ensures q in v.seen {
        var i :| 0 <= i < |fs[file]| && fs[file][i] == Include(q);
      }
    }
  }

  lemma {:induction false} LinesComplete(fs: Files, file: Path, seen: set<Path>, k: nat)
    requires file in fs && k <= |fs[file]|
    ensures var v := WalkLines(fs, file, seen, k); v.rows.Ok? ==> Covers(fs, file, k, v.seen) && Done(fs, seen, v.seen)
    decreases |fs.Keys - seen|, k
  {
    if k == 0 {
    } else {
      LinesComplete(fs, file, seen, k - 1);
      var v, line := WalkLines(fs, file, seen, k - 1), fs[file][k - 1];
      if v.rows.Ok? && line.Include? && line.child in fs {
        LeftShrinks(fs, seen, v.seen);
        WalkCompletes(fs, line.child, v.seen);
      }
    }
  }

  /** A walk fails only over a file it can reach, and says what is wrong with it. */
  lemma {:induction false} FaultIsGenuine(fs: Files, file: Path, seen: set<Path>)
    ensures var rows := Walk(fs, file, seen).rows;
            rows.Err? ==> Genuine(fs, rows.error) && Reachable(fs, file, Culprit(rows.error))
    decreases |fs.Keys - seen|, 0
  {
    ReachSelf(fs, file);
    if file !in seen && file in fs {
      LeftShrinks(fs, seen, seen + {file});
      LineFaultIsGenuine(fs, file, seen + {file}, |fs[file]|);
      LinesComplete(fs, file, seen + {file}, |fs[file]|);
    }
  }

  lemma {:induction false} LineFaultIsGenuine(fs: Files, file: Path, seen: set<Path>, k: nat)
    requires file in fs && k <= |fs[file]|
    ensures var rows := WalkLines(fs, file, seen, k).rows;
            rows.Err? ==> Genuine(fs, rows.error) && Reachable(fs, file, Culprit(rows.error))
    decreases |fs.Keys - seen|, k
  {
    if k > 0 && WalkLines(fs, file, seen, k).rows.Err? {
      var v, line := WalkLines(fs, file, seen, k - 1), fs[file][k - 1];
      LineFaultIsGenuine(fs, file, seen, k - 1);
      if v.rows.Ok? {
        ReachSelf(fs, file);
        LinesComplete(fs, file, seen, k - 1);
        if line.Include? && line.child in fs {
          LeftShrinks(fs, seen, v.seen);
          FaultIsGenuine(fs, line.child, v.seen);
          assert Includes(fs, file, line.child);
          ReachFurther(fs, file, line.child, Culprit(Walk(fs, line.child, v.seen).rows.error));
        }
      }
    }
  }

  /** Validation of one lockfile succeeds exactly when every file reachable from it exists, requires
      hashes and holds only acceptable lines; it has then seen exactly the reachable files. Otherwise
      it names a reachable file that is not so, and what is wrong with it. */
  lemma LockIsValidIff(fs: Files, file: Path)
    ensures Walk(fs, file, {}).rows.Ok? <==> forall p :: Reachable(fs, file, p) ==> WellFormed(fs, p)
    ensures Walk(fs, file, {}).rows.Ok? ==> forall p :: p in Walk(fs, file, {}).seen <==> Reachable(fs, file, p)
    ensures var rows := Walk(fs, file, {}).rows;
            rows.Err? ==> Genuine(fs, rows.error) && Reachable(fs, file, Culprit(rows.error))
  {
    var v := Walk(fs, file, {});
    if v.rows.Ok? {
      WalkCompletes(fs, file, {});
      WalkReaches(fs, file, {});
      forall p | Reachable(fs, file, p) ensures p in v.seen && WellFormed(fs, p) {
        var trail :| Trail(fs, trail, file, p);
        ClosedCovers(fs, v.seen, trail, file, p);
      }
    } else {
      FaultIsGenuine(fs, file, {});
      assert !WellFormed(fs, Culprit(v.rows.error));
    }
  }

  // ---------------------------------------------------------------- what the walk returns

  /** The rows of a walk are the pins of the files it added, each once. */
  ghost predicate Harvest(fs: Files, rows: seq<Requirement>, before: set<Path>, after: set<Path>) {
    && Distinct(rows)
    && (forall r :: r in rows <==> IsRow(fs, r) && r.file in after && r.file !in before)
  }

  lemma HarvestsJoin(fs: Files, xs: seq<Requirement>, ys: seq<Requirement>)
    requires Distinct(xs) && Distinct(ys) && forall x :: x in xs ==> x !in ys
    ensures Distinct(xs + ys)
  {
    var both := xs + ys;
    forall i, j | 0 <= i < j < |both| ensures both[i] != both[j] {
      if i < |xs| <= j {
        assert both[i] in xs && both[j] in ys;
      }
    }
  }

  lemma {:induction false} WalkHarvests(fs: Files, file: Path, seen: set<Path>)
    ensures var v := Walk(fs, file, seen); v.rows.Ok? ==> Harvest(fs, v.rows.value, seen, v.seen)
    decreases |fs.Keys - seen|, 0
  {
    if file !in seen && file in fs && Walk(fs, file, seen).rows.Ok? {
      LeftShrinks(fs, seen, seen + {file});
      LinesHarvest(fs, file, seen + {file}, |fs[file]|);
    }
  }

  /** The rows of the first k lines: those of the files added below, and the pins among the lines. */
  ghost predicate PartHarvest(fs: Files, file: Path, k: nat, rows: seq<Requirement>, before: set<Path>, after: set<Path>) {
    && Distinct(rows)
    && (forall r :: r in rows <==> IsRow(fs, r) && (if r.file == file then r.lineNo < k else r.file in after && r.file !in before))
  }

  lemma {:induction false} LinesHarvest(fs: Files, file: Path, seen: set<Path>, k: nat)
    requires file in fs && k <= |fs[file]| && file in seen
    ensures var v := WalkLines(fs, file, seen, k); v.rows.Ok? ==> PartHarvest(fs, file, k, v.rows.value, seen, v.seen)
    decreases |fs.Keys - seen|, k
  {
    if k > 0 && WalkLines(fs, file, seen, k).rows.Ok? {
      LinesHarvest(fs, file, seen, k - 1);
      var v, line := WalkLines(fs, file, seen, k - 1), fs[file][k - 1];
      if line.Include? {
        LeftShrinks(fs, seen, v.seen);
        WalkHarvests(fs, line.child, v.seen);
        HarvestsJoin(fs, v.rows.value, Walk(fs, line.child, v.seen).rows.value);
      } else if line.Pin? {
        HarvestsJoin(fs, v.rows.value, [RowOf(file, k - 1, line)]);
      }
    }
  }

  /** On success the requirements are exactly the pins of the reachable files, each file's once. */
  lemma RequirementsAreReachable(fs: Files, file: Path)
    requires Walk(fs, file, {}).rows.Ok?
    ensures var rows := Walk(fs, file, {}).rows.value;
            Distinct(rows) && forall r :: r in rows <==> IsRow(fs, r) && Reachable(fs, file, r.file)
  {
    WalkHarvests(fs, file, {});
    LockIsValidIff(fs, file);
  }

  // ---------------------------------------------------------------- the set of lockfiles

  /** The requirements of the lockfiles, walked one by one, each from an empty set of seen files. */
  function Gather(fs: Files, files: seq<Path>): Result<seq<Requirement>, Fault> {
    if files == [] then Ok([])
    else
      var n := |files| - 1;
      var front := Gather(fs, files[..n]);
      if front.Err? then front
      else
        var last := Walk(fs, files[n], {}).rows;
        if last.Err? then last else Ok(front.value + last.value)
  }

  predicate SameLock(a: Requirement, b: Requirement) {
    a.name == b.name ==> a.version == b.version && a.hashes == b.hashes
  }

  predicate Agree(rows: seq<Requirement>) {
    forall i, j :: 0 <= i < |rows| && 0 <= j < |rows| ==> SameLock(rows[i], rows[j])
  }

  /** Row k is the first that disagrees with an earlier row. */
  ghost predicate FirstClash(rows: seq<Requirement>, k: nat) {
    k < |rows| && Agree(rows[..k]) && !Agree(rows[..k + 1])
  }

  /** Rows that all agree with the representative of their name agree with each other. */
  lemma AgreesSoFar(rows: seq<Requirement>, k: nat, canonical: map<string, Requirement>)
    requires k <= |rows|
    requires forall i :: 0 <= i < k ==> rows[i].name in canonical && SameLock(rows[i], canonical[rows[i].name])
    requires forall n :: n in canonical ==> canonical[n].name == n && canonical[n] in rows[..k]
    ensures Agree(rows[..k])
    ensures k < |rows| && rows[k].name in canonical && !SameLock(rows[k], canonical[rows[k].name]) ==> !Agree(rows[..k + 1])
  {
    forall i, j | 0 <= i < k && 0 <= j < k ensures SameLock(rows[i], rows[j]) {
      assert SameLock(rows[i], canonical[rows[i].name]) && SameLock(rows[j], canonical[rows[j].name]);
    }
    if k < |rows| && rows[k].name in canonical && !SameLock(rows[k], canonical[rows[k].name]) {
      var i :| 0 <= i < k && rows[..k][i] == canonical[rows[k].name];
      assert rows[..k + 1][i] == rows[i] && rows[..k + 1][k] == rows[k];
      assert !SameLock(rows[k], rows[i]);
    }
  }

  function Names(rows: seq<Requirement>): set<string> {
    set k | 0 <= k < |rows| :: rows[k].name
  }

  lemma {:induction false} GatherStops(fs: Files, files: seq<Path>, k: nat)
    requires k <= |files| && Gather(fs, files[..k]).Err?
    ensures Gather(fs, files) == Gather(fs, files[..k])
    decreases |files|
  {
    if k == |files| {
      assert files[..k] == files;
    } else {
      var n := |files| - 1;
      assert files[..n][..k] == files[..k];
      GatherStops(fs, files[..n], k);
    }
  }

  /** The first loop of `validate_lock_set`. */
  method GatherLocks(fs: Files, files: seq<Path>) returns (r: Result<seq<Requirement>, Fault>)
    ensures r == Gather(fs, files)
  {
    var rows: seq<Requirement> := [];
    for k := 0 to |files|
      invariant Gather(fs, files[..k]) == Ok(rows)
    {
      assert files[..k + 1][..k] == files[..k];
      var walker := new Walker(fs);
      var below := walker.ValidateLock(files[k]);
      if below.Err? {
        GatherStops(fs, files, k + 1);
        return below;
      }
      rows := rows + below.value;
    }
    assert files[..|files|] == files;
    return Ok(rows);
  }

  /** The second loop of `validate_lock_set`. */
  method CheckAgreement(rows: seq<Requirement>) returns (r: Result<nat, Fault>)
    ensures r.Ok? <==> Agree(rows) && rows != []
    ensures r.Ok? ==> r.value == |Names(rows)|
    ensures rows == [] ==> r == Err(EmptySet)
    ensures rows != [] && r.Err? ==> exists k: nat :: FirstClash(rows, k) && r.error == Conflict(rows[k].name)
  {
    var canonical: map<string, Requirement> := map[];
    for k := 0 to |rows|
      invariant canonical.Keys == Names(rows[..k])
      invariant forall i :: 0 <= i < k ==> rows[i].name in canonical && SameLock(rows[i], canonical[rows[i].name])
      invariant forall n :: n in canonical ==> canonical[n].name == n && canonical[n] in rows[..k]
    {
      var row := rows[k];
      AgreesSoFar(rows, k, canonical);
      if row.name in canonical && (canonical[row.name].version != row.version || canonical[row.name].hashes != row.hashes) {
        assert FirstClash(rows, k);
        AgreesPrefix(rows, k + 1);
        return Err(Conflict(row.name));
      }
      NamesNext(rows, k);
      canonical := canonical[row.name := row];
    }
    AgreesSoFar(rows, |rows|, canonical);
    assert rows[..|rows|] == rows;
    assert |canonical| == |canonical.Keys|;
    assert rows != [] ==> rows[0].name in canonical.Keys;
    if |canonical| == 0 {
      return Err(EmptySet);
    }
    return Ok(|canonical|);
  }

  lemma NamesNext(rows: seq<Requirement>, k: nat)
    requires k < |rows|
    ensures Names(rows[..k + 1]) == Names(rows[..k]) + {rows[k].name}
  {
    assert rows[..k + 1][k] == rows[k];
    forall n | n in Names(rows[..k]) ensures n in Names(rows[..k + 1]) {
      var i :| 0 <= i < k && rows[..k][i].name == n;
      assert rows[..k + 1][i].name == n;
    }
  }

  lemma AgreesPrefix(rows: seq<Requirement>, k: nat)
    requires k <= |rows|
    ensures Agree(rows) ==> Agree(rows[..k])
  {
    if Agree(rows) {
      forall i, j | 0 <= i < k && 0 <= j < k ensures SameLock(rows[..k][i], rows[..k][j]) {
        assert SameLock(rows[i], rows[j]);
      }
    }
  }

  /** `validate_lock_set`: the number of distinct requirements. */
  method ValidateLockSet(fs: Files, files: seq<Path>) returns (r: Result<nat, Fault>)
    ensures var g := Gather(fs, files);
            && (g.Err? ==> r == Err(g.error))
            && (g == Ok([]) ==> r == Err(EmptySet))
            && (g.Ok? ==> (r.Ok? <==> Agree(g.value) && g.value != []))
            && (g.Ok? && r.Ok? ==> r.value == |Names(g.value)|)
            && (g.Ok? && g.value != [] && r.Err? ==>
                  exists k: nat :: FirstClash(g.value, k) && r.error == Conflict(g.value[k].name))
  {
    var rows := GatherLocks(fs, files);
    if rows.Err? {
      return Err(rows.error);
    }
    r := CheckAgreement(rows.value);
  }

  /** A pin of a file reachable from one of the lockfiles. */
  ghost predicate ReachablePin(fs: Files, files: seq<Path>, r: Requirement) {
    IsRow(fs, r) && exists f :: f in files && Reachable(fs, f, r.file)
  }

  /** Gathering succeeds exactly when every file reachable from some lockfile is well formed; the
      requirements gathered are the pins of those files. */
  lemma {:induction false} GatherIff(fs: Files, files: seq<Path>)
    ensures Gather(fs, files).Ok? <==> forall f, p :: f in files && Reachable(fs, f, p) ==> WellFormed(fs, p)
    ensures Gather(fs, files).Ok? ==> forall r :: r in Gather(fs, files).value <==> ReachablePin(fs, files, r)
  {
    if files == [] {
    } else {
      var n := |files| - 1;
      GatherIff(fs, files[..n]);
      LockIsValidIff(fs, files[n]);
      assert forall f :: f in files <==> f in files[..n] || f == files[n];
      if Gather(fs, files).Ok? {
        RequirementsAreReachable(fs, files[n]);
      }
    }
  }

  /** The whole check, read off the include graph: the set of lockfiles is accepted exactly when
      every reachable file is well formed, one of them pins something, and pins of one name agree. */
  lemma LockSetIff(fs: Files, files: seq<Path>)
    ensures (Gather(fs, files).Ok? && Agree(Gather(fs, files).value) && Gather(fs, files).value != []) <==>
            && (forall f, p :: f in files && Reachable(fs, f, p) ==> WellFormed(fs, p))
            && (exists r :: ReachablePin(fs, files, r))
            && (forall a, b :: ReachablePin(fs, files, a) && ReachablePin(fs, files, b) && a.name == b.name ==>
                  a.version == b.version && a.hashes == b.hashes)
  {
    GatherIff(fs, files);
    var g := Gather(fs, files);
    if g.Ok? {
      assert Agree(g.value) <==> forall a, b :: a in g.value && b in g.value ==> SameLock(a, b);
      if g.value != [] {
        assert g.value[0] in g.value;
      }
    }
  }
}
