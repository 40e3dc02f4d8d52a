/**
 * The comparison worker: it validates its options, reads its share of the
 * input in batches, decides each feature, writes create records to its
 * output and stages modify records; later one instance merges the staged
 * rows of every worker, grouped by target record.
 *
 * The output stream is the field `output` (the records written, in
 * order); the staging table `modified` is the field `staged` (the rows
 * this instance inserted).
 */
module Worker {
  import opened ConflateTypes
  import opened UniqBy
  import opened Matching
  import opened Reading

  /** The option keys the worker accepts. */
  const OptionKeys: seq<string> := ["id", "total", "context", "output", "pool", "map", "read", "tokens"]

  /** Reject the first option key, in the order given, that is not an accepted key. */
  method CheckOptions(keys: seq<string>) returns (err: Option<Error>)
    ensures err.None? <==> forall k :: k in keys ==> k in OptionKeys
    ensures err.Some? ==>
      exists i :: 0 <= i < |keys| && keys[i] !in OptionKeys && err.value == InvalidOption(keys[i]) &&
        forall j :: 0 <= j < i ==> keys[j] in OptionKeys
  {
    var i := 0;
    while i < |keys|
      invariant 0 <= i <= |keys|
      invariant forall j :: 0 <= j < i ==> keys[j] in OptionKeys
    {
      if keys[i] !in OptionKeys {
        return Some(InvalidOption(keys[i]));
      }
      i := i + 1;
    }
    return None;
  }

  /** What happens to one input line. */
  datatype LineResult = Fatal(e: Error) | Done(d: Decision)

  /** Strip separators, parse (and map), query the candidates, decide. */
  function Handle(line: string, env: Env): LineResult
  {
    match env.decode(StripRS(line))
    case Malformed => Fatal(ParseError)
    case NotActionable => Done(Drop)
    case Parsed(feat) =>
      match env.query(feat)
      case None => Fatal(StoreError)
      case Some(rows) => Done(Decide(feat, rows, env.tok, env.dist))
  }

  /** The output records a decision produces: the create record itself. */
  function Written(d: Decision): seq<Decision>
  {
    if d.Create? then [d] else []
  }

  /** The staging rows a decision produces: one row for a modify record. */
  function StagedRows(d: Decision): seq<Row>
  {
    if d.Modify? then [Row(d.id, d.version, d.props, d.geometry)] else []
  }

  /** The effect of a run over some lines: what was written, what was staged, and the error that stopped it, if any. */
  datatype RunResult = RunResult(written: seq<Decision>, staged: seq<Row>, err: Option<Error>)

  /** The effect of handling one line. */
  function Effect(h: LineResult): RunResult
  {
    match h
    case Fatal(e) => RunResult([], [], Some(e))
    case Done(d) => RunResult(Written(d), StagedRows(d), None)
  }

  /** The effect of running two parts one after the other: the second runs only if the first succeeded. */
  function Then(ra: RunResult, rb: RunResult): RunResult
  {
    if ra.err.Some? then ra
    else RunResult(ra.written + rb.written, ra.staged + rb.staged, rb.err)
  }

  lemma ThenAssoc(ra: RunResult, rb: RunResult, rc: RunResult)
    ensures Then(Then(ra, rb), rc) == Then(ra, Then(rb, rc))
  {
    if ra.err.None? && rb.err.None? {
      assert ra.written + rb.written + rc.written == ra.written + (rb.written + rc.written);
      assert ra.staged + rb.staged + rc.staged == ra.staged + (rb.staged + rc.staged);
    }
  }

  /**
   * `handle` is the per-line step of the worker with collaborators `env`.
   * The runs below take the step as a function so that their proofs need
   * not look inside it.
   */
  ghost predicate HandledBy(env: Env, handle: string -> LineResult)
  {
    forall l {:trigger Handle(l, env)} :: handle(l) == Handle(l, env)
  }

  /** The per-line outcomes of some lines. */
  function Outcomes(lines: seq<string>, handle: string -> LineResult): (r: seq<LineResult>)
    ensures |r| == |lines|
    ensures forall i :: 0 <= i < |lines| ==> r[i] == handle(lines[i])
  {
    seq(|lines|, i requires 0 <= i < |lines| => handle(lines[i]))
  }

  /** Outcomes take effect in order; the first fatal one ends the run. */
  function Collect(rs: seq<LineResult>): RunResult
  {
    if rs == [] then RunResult([], [], None)
    else Then(Effect(rs[0]), Collect(rs[1..]))
  }

  /** Lines are handled in order; the first fatal error ends the run. */
  function Run(lines: seq<string>, handle: string -> LineResult): RunResult
  {
    Collect(Outcomes(lines, handle))
  }

  lemma {:induction false} CollectAppend(a: seq<LineResult>, b: seq<LineResult>)
    ensures Collect(a + b) == Then(Collect(a), Collect(b))
  {
    if a == [] {
      assert a + b == b;
    } else {
      assert (a + b)[0] == a[0];
      assert (a + b)[1..] == a[1..] + b;
      CollectAppend(a[1..], b);
      ThenAssoc(Effect(a[0]), Collect(a[1..]), Collect(b));
    }
  }

  /** Running a concatenation is running its parts one after the other. */
  lemma RunAppend(a: seq<string>, b: seq<string>, handle: string -> LineResult)
    ensures Run(a + b, handle) == Then(Run(a, handle), Run(b, handle))
  {
    assert Outcomes(a + b, handle) == Outcomes(a, handle) + Outcomes(b, handle);
    CollectAppend(Outcomes(a, handle), Outcomes(b, handle));
  }

  /** Running one more line adds the effect of that line. */
  lemma RunSnoc(lines: seq<string>, i: int, handle: string -> LineResult)
    requires 0 <= i < |lines|
    ensures Run(lines[..i + 1], handle) == Then(Run(lines[..i], handle), Effect(handle(lines[i])))
  {
    assert lines[..i + 1] == lines[..i] + [lines[i]];
    RunAppend(lines[..i], [lines[i]], handle);
    assert Outcomes([lines[i]], handle) == [handle(lines[i])];
    var e := Effect(handle(lines[i]));
    assert Collect([handle(lines[i])]) == Then(e, RunResult([], [], None));
    assert e.written + [] == e.written && e.staged + [] == e.staged;
  }

  /** Processing the lines up to `hi` is processing those up to `lo`, then those from `lo` to `hi`. */
  lemma RunAssignedSplit(lines: seq<string>, lo: nat, hi: nat, id: int, total: int, handle: string -> LineResult)
    requires lo <= hi <= |lines|
    ensures Run(Assigned(lines[..hi], 1, id, total), handle) ==
      Then(Run(Assigned(lines[..lo], 1, id, total), handle), Run(Assigned(lines[lo..hi], lo + 1, id, total), handle))
  {
    assert lines[..lo] + lines[lo..hi] == lines[..hi];
    AssignedAppend(lines[..lo], lines[lo..hi], 1, id, total);
    RunAppend(Assigned(lines[..lo], 1, id, total), Assigned(lines[lo..hi], lo + 1, id, total), handle);
  }

  /** Only create records reach the output; at most one record per line is written or staged. */
  lemma {:induction false} CollectSeparatesActions(rs: seq<LineResult>)
    ensures forall d :: d in Collect(rs).written ==> d.Create?
    ensures forall w :: w in Collect(rs).staged ==> exists h :: h in rs && h == Done(Modify(w.id, w.version, w.props, w.geometry))
    ensures |Collect(rs).written| + |Collect(rs).staged| <= |rs|
  {
    if rs != [] {
      CollectSeparatesActions(rs[1..]);
      forall w | w in Collect(rs).staged
        ensures exists h :: h in rs && h == Done(Modify(w.id, w.version, w.props, w.geometry))
      {
        if w !in Collect(rs[1..]).staged {
          assert rs[0] in rs;
        } else {
          var h :| h in rs[1..] && h == Done(Modify(w.id, w.version, w.props, w.geometry));
          assert h in rs;
        }
      }
    }
  }

  /** The grouped staged street lists, concatenated member by member. */
  function ConcatStreets(members: seq<Props>): seq<Street>
  {
    if members == [] then [] else members[0].street + ConcatStreets(members[1..])
  }

  lemma {:induction false} ConcatStreetsSnoc(members: seq<Props>, i: int)
    requires 0 <= i < |members|
    ensures ConcatStreets(members[..i + 1]) == ConcatStreets(members[..i]) + members[i].street
  {
    if i == 0 {
      assert members[..1][1..] == [];
    } else {
      assert members[..i + 1][1..] == members[1..][..i];
      assert members[..i][1..] == members[1..][..i - 1];
      ConcatStreetsSnoc(members[1..], i - 1);
    }
  }

  /**
   * The intended merge of one group: a single row is emitted unchanged;
   * several rows keep the first row's properties with the concatenated
   * street lists, deduplicated by display string.
   */
  function MergedGroup(g: Group): Decision
    requires |g.members| >= 1
  {
    if |g.members| == 1 then Modify(g.id, g.version, g.members[0], g.geometry)
    else Modify(g.id, g.version, g.members[0].(street := UniqByDisplay(ConcatStreets(g.members))), g.geometry)
  }

  /**
   * The reduction as written starts from the first row's street list and
   * then visits the first row again, so that list appears twice; after
   * deduplication the result is the intended merge.
   */
  lemma ReduceDuplicateHarmless(members: seq<Props>)
    requires |members| >= 1
    ensures UniqByDisplay(members[0].street + ConcatStreets(members)) == UniqByDisplay(ConcatStreets(members))
  {
    var s0, rest := members[0].street, ConcatStreets(members[1..]);
    assert ConcatStreets(members) == s0 + rest;
    assert s0 + (s0 + rest) == s0 + s0 + rest;
    UniqByRepeatedPrefix(s0, rest);
  }

  /** What the merge guarantees about the emitted record. */
  lemma MergedGroupShape(g: Group)
    requires |g.members| >= 1
    ensures var d := MergedGroup(g);
      && d.Modify? && d.id == g.id && d.version == g.version && d.geometry == g.geometry
      && d.props == g.members[0].(street := d.props.street)
      && (|g.members| == 1 ==> d.props == g.members[0])
      && (|g.members| > 1 ==>
            && DistinctDisplays(d.props.street)
            && Displays(d.props.street) == Displays(ConcatStreets(g.members))
            && d.props.street == KeepFirst(ConcatStreets(g.members)))
  {
    if |g.members| > 1 {
      UniqByDisplays(ConcatStreets(g.members));
      UniqByIsKeepFirst(ConcatStreets(g.members));
    }
  }

  class Compare {
    const id: int
    const total: int
    /** The records written to the output stream, in order. */
    var output: seq<Decision>
    /** The rows this instance inserted into the staging table. */
    var staged: seq<Row>

    constructor(id: int, total: int)
      ensures this.id == id && this.total == total
      ensures output == [] && staged == []
    {
      this.id, this.total := id, total;
      output, staged := [], [];
    }

    /** One queued task: handle the line and write or stage its record. */
    method ProcessLine(line: string, env: Env) returns (err: Option<Error>)
      modifies this
      ensures var r := Effect(Handle(line, env));
        output == old(output) + r.written && staged == old(staged) + r.staged && err == r.err
    {
      var text := StripRS(line);
      match env.decode(text) {
        case Malformed =>
          return Some(ParseError);
        case NotActionable =>
          return None;
        case Parsed(feat) =>
          var rows := env.query(feat);
          if rows.None? {
            return Some(StoreError);
          }
          var hecate := Matching.Compare(feat, rows.value, env.tok, env.dist);
          if hecate.Create? {
            output := output + [hecate];
          } else if hecate.Modify? {
            staged := staged + [Row(hecate.id, hecate.version, hecate.props, hecate.geometry)];
          }
          return None;
      }
    }

    /** Run the queued tasks of one batch, stopping at the first error. */
    method ProcessBatch(batch: seq<string>, env: Env, ghost handle: string -> LineResult)
      returns (err: Option<Error>)
      requires HandledBy(env, handle)
      modifies this
      ensures var r := Run(batch, handle);
        output == old(output) + r.written && staged == old(staged) + r.staged && err == r.err
    {
      var i := 0;
      err := None;
      while i < |batch|
        invariant 0 <= i <= |batch|
        invariant var r := Run(batch[..i], handle);
          output == old(output) + r.written && staged == old(staged) + r.staged && r.err == None
        invariant err == None
      {
        ghost var before := Run(batch[..i], handle);
        ghost var e := Effect(handle(batch[i]));
        RunSnoc(batch, i, handle);
        err := ProcessLine(batch[i], env);
        assert handle(batch[i]) == Handle(batch[i], env);
        assert output == old(output) + before.written + e.written;
        assert staged == old(staged) + before.staged + e.staged;
        if err.Some? {
          RunAppend(batch[..i + 1], batch[i + 1..], handle);
          assert batch[..i + 1] + batch[i + 1..] == batch;
          return;
        }
        i := i + 1;
      }
      assert batch[..i] == batch;
    }

    /**
     * One call of `reader`: read a batch of lines, then run the queued tasks
     * for the lines of this worker.
     */
    method Reader(lines: seq<string>, pos: nat, num: nat, env: Env, ghost handle: string -> LineResult)
      returns (pos': nat, num': nat, finished: bool, err: Option<Error>)
      requires pos <= |lines|
      requires HandledBy(env, handle)
      modifies this
      ensures pos <= pos' <= |lines| && pos' - pos <= BatchSize && num' == num + (pos' - pos)
      ensures finished <==> |lines| - pos < BatchSize
      ensures finished ==> pos' == |lines|
      ensures !finished ==> pos' == pos + BatchSize
      ensures var r := Run(Assigned(lines[pos..pos'], num + 1, id, total), handle);
        output == old(output) + r.written && staged == old(staged) + r.staged && err == r.err
    {
      var batch;
      batch, pos', num', finished := ReadBatch(lines, pos, num, id, total);
      err := ProcessBatch(batch, env, handle);
    }

    /**
     * `read`: call `reader` until the file is exhausted or a task fails;
     * the worker processes exactly its assigned lines, in order, each with
     * the step `Handle`.
     */
    method Read(lines: seq<string>, env: Env, ghost handle: string -> LineResult) returns (err: Option<Error>)
      requires HandledBy(env, handle)
      modifies this
      ensures var r := Run(Assigned(lines, 1, id, total), handle);
        output == old(output) + r.written && staged == old(staged) + r.staged && err == r.err
    {
      var num, pos := 0, 0;
      var finished := false;
      err := None;
      while !finished
        invariant pos <= |lines| && num == pos
        invariant finished ==> pos == |lines|
        invariant err == None
        invariant var r := Run(Assigned(lines[..pos], 1, id, total), handle);
          output == old(output) + r.written && staged == old(staged) + r.staged && r.err == None
        decreases |lines| - pos, !finished
      {
        ghost var before := Run(Assigned(lines[..pos], 1, id, total), handle);
        var pos', num', fin;
        pos', num', fin, err := Reader(lines, pos, num, env, handle);
        ghost var rb := Run(Assigned(lines[pos..pos'], pos + 1, id, total), handle);
        RunAssignedSplit(lines, pos, pos', id, total, handle);
        assert output == old(output) + before.written + rb.written;
        assert staged == old(staged) + before.staged + rb.staged;
        if err.Some? {
          RunAssignedSplit(lines, pos', |lines|, id, total, handle);
          assert lines[..|lines|] == lines;
          return;
        }
        pos, num, finished := pos', num', fin;
      }
      assert lines[..pos] == lines;
    }

    /** Merge one group: the reduce over its rows, then uniqBy on display. */
    method MergeGroup(g: Group) returns (d: Decision)
      requires |g.members| >= 1
      ensures d == MergedGroup(g)
    {
      if |g.members| == 1 {
        return Modify(g.id, g.version, g.members[0], g.geometry);
      }
      var acc := g.members[0];
      var i := 0;
      while i < |g.members|
        invariant 0 <= i <= |g.members|
        invariant acc == g.members[0].(street := g.members[0].street + ConcatStreets(g.members[..i]))
      {
        ConcatStreetsSnoc(g.members, i);
        acc := acc.(street := acc.street + g.members[i].street);
        i := i + 1;
      }
      assert g.members[..i] == g.members;
      ReduceDuplicateHarmless(g.members);
      acc := acc.(street := UniqByDisplay(acc.street));
      d := Modify(g.id, g.version, acc, g.geometry);
    }

    /** `modify_groups`: write one merged modify record per group, in scan order. */
    method ModifyGroups(groups: seq<Group>)
      requires forall g :: g in groups ==> |g.members| >= 1
      modifies this
      ensures |output| == |old(output)| + |groups|
      ensures output[..|old(output)|] == old(output)
      ensures forall i :: 0 <= i < |groups| ==> output[|old(output)| + i] == MergedGroup(groups[i])
      ensures staged == old(staged)
    {
      var i := 0;
      while i < |groups|
        invariant 0 <= i <= |groups|
        invariant |output| == |old(output)| + i
        invariant output[..|old(output)|] == old(output)
        invariant forall k :: 0 <= k < i ==> output[|old(output)| + k] == MergedGroup(groups[k])
        invariant staged == old(staged)
      {
        assert groups[i] in groups;
        var row := MergeGroup(groups[i]);
        output := output + [row];
        i := i + 1;
      }
    }
  }
}
