/**
 * How a worker reads the shared input file: which lines it keeps, how
 * many it reads per batch, and how a GeoJSON text sequence line is
 * cleaned before parsing.
 */
module Reading {

  /** The record separator of JSON text sequences (section 2 of RFC 7464), as used by GeoJSON text sequences (RFC 8142). */
  const RS: char := 30 as char

  /** Lines read from the file before the batch is processed. */
  const BatchSize: nat := 100

  /** The line with every record separator removed. */
  function StripRS(line: string): (r: string)
    ensures RS !in r
    ensures forall c :: c in r <==> c in line && c != RS
    ensures |r| <= |line|
  {
    if line == [] then []
    else (if line[0] == RS then [] else [line[0]]) + StripRS(line[1..])
  }

  lemma {:induction false} StripRSAppend(a: string, b: string)
    ensures StripRS(a + b) == StripRS(a) + StripRS(b)
  {
    if a != [] {
      assert (a + b)[1..] == a[1..] + b;
      StripRSAppend(a[1..], b);
    } else {
      assert a + b == b;
    }
  }

  /** A line without record separators is left unchanged. */
  lemma {:induction false} StripRSNoSeparator(line: string)
    requires RS !in line
    ensures StripRS(line) == line
  {
    if line != [] {
      assert line[0] in line;
      assert forall c :: c in line[1..] ==> c in line;
      StripRSNoSeparator(line[1..]);
      assert [line[0]] + line[1..] == line;
    }
  }

  /** Stripping twice is stripping once. */
  lemma StripRSIdempotent(line: string)
    ensures StripRS(StripRS(line)) == StripRS(line)
  {
    StripRSNoSeparator(StripRS(line));
  }

  /**
   * Worker `id` of `total` processes the line whose 1-based number is `num`.
   * A zero `total` makes the remainder NaN in JavaScript, so no line is kept.
   * For a positive `num` the JavaScript remainder equals Dafny's.
   */
  predicate Keep(num: nat, id: int, total: int)
  {
    total != 0 && num % total == id
  }

  /** The lines a worker processes, when the first line of `lines` has number `first`. */
  function Assigned(lines: seq<string>, first: nat, id: int, total: int): seq<string>
  {
    if lines == [] then []
    else (if Keep(first, id, total) then [lines[0]] else []) + Assigned(lines[1..], first + 1, id, total)
  }

  lemma {:induction false} AssignedAppend(a: seq<string>, b: seq<string>, first: nat, id: int, total: int)
    ensures Assigned(a + b, first, id, total) ==
            Assigned(a, first, id, total) + Assigned(b, first + |a|, id, total)
  {
    if a == [] {
      assert a + b == b;
    } else {
      assert (a + b)[1..] == a[1..] + b;
      AssignedAppend(a[1..], b, first + 1, id, total);
    }
  }

  /** With `total` workers numbered 0 to total - 1, each line number is kept by exactly one of them. */
  lemma KeepExactlyOne(num: nat, total: int)
    requires total > 0
    ensures 0 <= num % total < total && Keep(num, num % total, total)
    ensures forall id :: Keep(num, id, total) ==> id == num % total
  {
  }

  /** How many of the workers 0 .. n - 1 keep line number `num`. */
  function KeptBy(num: nat, total: int, n: nat): nat
  {
    if n == 0 then 0 else KeptBy(num, total, n - 1) + (if Keep(num, n - 1, total) then 1 else 0)
  }

  lemma {:induction false} KeptByCount(num: nat, total: int, n: nat)
    requires total > 0
    ensures KeptBy(num, total, n) == if num % total < n then 1 else 0
  {
    if n > 0 {
      KeptByCount(num, total, n - 1);
    }
  }

  /** The total number of lines the workers 0 .. n - 1 process. */
  function Workload(lines: seq<string>, first: nat, total: int, n: nat): nat
  {
    if n == 0 then 0 else Workload(lines, first, total, n - 1) + |Assigned(lines, first, n - 1, total)|
  }

  lemma {:induction false} WorkloadStep(lines: seq<string>, first: nat, total: int, n: nat)
    requires lines != []
    ensures Workload(lines, first, total, n) ==
            KeptBy(first, total, n) + Workload(lines[1..], first + 1, total, n)
  {
    if n > 0 {
      WorkloadStep(lines, first, total, n - 1);
    }
  }

  /**
   * All `total` workers together process every line exactly once: their
   * assignments add up to the whole file.
   */
  lemma {:induction false} WorkersCoverInput(lines: seq<string>, first: nat, total: int)
    requires total > 0
    ensures Workload(lines, first, total, total) == |lines|
  {
    if lines == [] {
      WorkloadEmpty(first, total, total);
    } else {
      WorkloadStep(lines, first, total, total);
      KeptByCount(first, total, total);
      WorkersCoverInput(lines[1..], first + 1, total);
    }
  }

  lemma {:induction false} WorkloadEmpty(first: nat, total: int, n: nat)
    ensures Workload([], first, total, n) == 0
  {
    if n > 0 {
      WorkloadEmpty(first, total, n - 1);
    }
  }

  /**
   * One batch of the reader loop: read at most `BatchSize` lines from
   * position `pos`, numbering them from `num + 1`, and keep this worker's.
   * `finished` is set when the file ran out before the batch was full.
   */
  method ReadBatch(lines: seq<string>, pos: nat, num: nat, id: int, total: int)
    returns (batch: seq<string>, pos': nat, num': nat, finished: bool)
    requires pos <= |lines|
    ensures pos <= pos' <= |lines| && pos' - pos <= BatchSize
    ensures num' == num + (pos' - pos)
    ensures finished <==> |lines| - pos < BatchSize
    ensures !finished ==> pos' == pos + BatchSize
    ensures finished ==> pos' == |lines|
    ensures batch == Assigned(lines[pos..pos'], num + 1, id, total)
  {
    batch, pos', num', finished := [], pos, num, false;
    var current := 0;
    while true
      invariant 0 <= current <= BatchSize
      invariant pos' == pos + current <= |lines|
      invariant num' == num + current
      invariant batch == Assigned(lines[pos..pos'], num + 1, id, total)
      invariant !finished
      decreases BatchSize - current
    {
      current := current + 1;
      if current > BatchSize {
        break;
      }
      if pos' == |lines| {
        finished := true;
        break;
      }
      var l := lines[pos'];
      AssignedAppend(lines[pos..pos'], [l], num + 1, id, total);
      assert lines[pos..pos' + 1] == lines[pos..pos'] + [l];
      pos' := pos' + 1;
      num' := num' + 1;
      if Keep(num', id, total) {
        batch := batch + [l];
      }
    }
  }
}
