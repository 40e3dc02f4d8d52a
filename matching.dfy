/**
 * The decision `compare` takes for one incoming address feature: create
 * it, extend the street list of a known record, or drop it.
 *
 * The tokenizer (`tokenize.main` followed by `replaceToken` with the
 * global abbreviation table) is the parameter `tok`; the geodesic
 * distance (`turf.distance` in kilometres) is the parameter `dist`.
 */
module Matching {
  import opened ConflateTypes

  /** Candidates must lie strictly closer than this, in kilometres. */
  const CutoffKm: real := 0.5

  /** The create record: the input's number, street list, source and geometry. */
  function CreateRecord(feat: Feature): (r: Decision)
    ensures r.Create? && r.geometry == feat.geometry
    ensures r.props.number == feat.props.number && r.props.street == feat.props.street
    ensures r.props.source == feat.props.source
  {
    Create(Props(feat.props.number, feat.props.street, feat.props.source), feat.geometry)
  }

  /** The token of every entry of a street list, in order. */
  function Tokens(streets: seq<Street>, tok: string -> string): (r: seq<string>)
    ensures |r| == |streets|
    ensures forall i :: 0 <= i < |streets| ==> r[i] == tok(streets[i].display)
  {
    seq(|streets|, i requires 0 <= i < |streets| => tok(streets[i].display))
  }

  predicate IsNear(feat: Feature, c: Candidate, dist: (Point, Point) -> real)
  {
    dist(feat.geometry, c.feat.geometry) < CutoffKm
  }

  /** The candidates within the cut-off distance, in the order the store returned them. */
  function Nearby(feat: Feature, rows: seq<Candidate>, dist: (Point, Point) -> real): (r: seq<Candidate>)
  {
    if rows == [] then []
    else (if IsNear(feat, rows[0], dist) then [rows[0]] else []) + Nearby(feat, rows[1..], dist)
  }

  /** Some input token is among the candidate's stored tokenized names. */
  predicate Matches(c: Candidate, potentials: seq<string>)
  {
    exists p :: p in potentials && p in c.tokenized
  }

  /** The first candidate, in order, that matches. */
  function FirstMatch(cands: seq<Candidate>, potentials: seq<string>): (r: Option<Candidate>)
  {
    if cands == [] then None
    else if Matches(cands[0], potentials) then Some(cands[0])
    else FirstMatch(cands[1..], potentials)
  }

  /** The input street entries whose token is not the token of any known entry, in input order. */
  function Novel(known: seq<Street>, potential: seq<Street>, tok: string -> string): (r: seq<Street>)
  {
    if potential == [] then []
    else
      (if tok(potential[0].display) in Tokens(known, tok) then [] else [potential[0]])
      + Novel(known, potential[1..], tok)
  }

  /**
   * What `modify` yields: the known record with the novel entries appended
   * to its street list, or Drop (`false`) when there are none.
   */
  function ModifyOutcome(known: Known, potential: Feature, tok: string -> string): Decision
  {
    var novel := Novel(known.props.street, potential.props.street, tok);
    if novel == [] then Drop
    else Modify(known.id, known.version, known.props.(street := known.props.street + novel), known.geometry)
  }

  /** The decision `compare` takes for a feature and its candidate rows. */
  function Decide(feat: Feature, rows: seq<Candidate>, tok: string -> string,
                  dist: (Point, Point) -> real): Decision
  {
    if rows == [] then CreateRecord(feat)
    else match FirstMatch(Nearby(feat, rows, dist), Tokens(feat.props.street, tok))
      case None => CreateRecord(feat)
      case Some(c) => ModifyOutcome(c.feat, feat, tok)
  }

  /** `modify`: append every input street entry whose token no known entry has. */
  method ModifyKnown(known: Known, potential: Feature, tok: string -> string) returns (d: Decision)
    ensures d == ModifyOutcome(known, potential, tok)
    ensures d.Drop? <==>
      forall p :: p in potential.props.street ==> tok(p.display) in Tokens(known.props.street, tok)
    ensures d.Modify? ==>
      && d.id == known.id && d.version == known.version && d.geometry == known.geometry
      && d.props == known.props.(street := d.props.street)
      && d.props.street[..|known.props.street|] == known.props.street
      && d.props.street[|known.props.street|..] == Novel(known.props.street, potential.props.street, tok)
  {
    var input := potential.props.street;
    var kstreets := known.props.street;
    var changed := false;
    var names := kstreets;
    var i := 0;
    while i < |input|
      invariant 0 <= i <= |input|
      invariant names == kstreets + Novel(kstreets, input[..i], tok)
      invariant changed <==> Novel(kstreets, input[..i], tok) != []
    {
      var pname := input[i];
      var ptoken := tok(pname.display);
      var found := false;
      var j := 0;
      while j < |kstreets|
        invariant 0 <= j <= |kstreets|
        invariant found <==> ptoken in Tokens(kstreets, tok)[..j]
      {
        var ktoken := tok(kstreets[j].display);
        assert Tokens(kstreets, tok)[..j + 1] == Tokens(kstreets, tok)[..j] + [ktoken];
        if ktoken == ptoken {
          found := true;
          break;
        }
        j := j + 1;
      }
      assert found <==> ptoken in Tokens(kstreets, tok) by {
        if j == |kstreets| {
          assert Tokens(kstreets, tok)[..j] == Tokens(kstreets, tok);
        }
      }
      NovelStep(kstreets, input, i, tok);
      if !found {
        names := names + [pname];
        changed := true;
      }
      i := i + 1;
    }
    assert input[..i] == input;
    ModifyOutcomeShape(known, potential, tok);
    if !changed {
      return Drop;
    }
    d := Modify(known.id, known.version, known.props.(street := names), known.geometry);
  }

  /** The shape of `modify`'s result: drop iff nothing is new, otherwise the known record with the known list as prefix and the novel entries after it. */
  lemma ModifyOutcomeShape(known: Known, potential: Feature, tok: string -> string)
    ensures ModifyOutcome(known, potential, tok).Drop? <==>
      forall p :: p in potential.props.street ==> tok(p.display) in Tokens(known.props.street, tok)
    ensures var d := ModifyOutcome(known, potential, tok);
      d.Modify? ==>
      && d.id == known.id && d.version == known.version && d.geometry == known.geometry
      && d.props == known.props.(street := d.props.street)
      && d.props.street[..|known.props.street|] == known.props.street
      && d.props.street[|known.props.street|..] == Novel(known.props.street, potential.props.street, tok)
  {
    var novel := Novel(known.props.street, potential.props.street, tok);
    NovelMembers(known.props.street, potential.props.street, tok);
    if novel != [] {
      assert novel[0] in novel;
      var s := known.props.street + novel;
      assert s[..|known.props.street|] == known.props.street;
      assert s[|known.props.street|..] == novel;
    }
  }

  /** `compare`: the first nearby candidate sharing a street token decides; otherwise create. */
  method Compare(feat: Feature, rows: seq<Candidate>, tok: string -> string,
                 dist: (Point, Point) -> real) returns (d: Decision)
    ensures d == Decide(feat, rows, tok, dist)
    ensures rows == [] ==> d == CreateRecord(feat)
  {
    if |rows| == 0 {
      return CreateRecord(feat);
    }
    var near := Nearby(feat, rows, dist);
    var potentials := Tokens(feat.props.street, tok);
    var i := 0;
    while i < |near|
      invariant 0 <= i <= |near|
      invariant FirstMatch(near, potentials) == FirstMatch(near[i..], potentials)
    {
      var known := near[i].tokenized;
      var j := 0;
      while j < |potentials|
        invariant 0 <= j <= |potentials|
        invariant forall k :: 0 <= k < j ==> potentials[k] !in known
      {
        if potentials[j] in known {
          assert Matches(near[i], potentials) by {
            assert potentials[j] in potentials;
          }
          assert FirstMatch(near[i..], potentials) == Some(near[i]) by {
            assert near[i..][0] == near[i];
          }
          d := ModifyKnown(near[i].feat, feat, tok);
          return;
        }
        j := j + 1;
      }
      assert !Matches(near[i], potentials) by {
        forall p | p in potentials ensures p !in known {
          var k :| 0 <= k < |potentials| && potentials[k] == p;
        }
      }
      assert FirstMatch(near[i..], potentials) == FirstMatch(near[i + 1..], potentials) by {
        assert near[i..][0] == near[i];
        assert near[i..][1..] == near[i + 1..];
      }
      i := i + 1;
    }
    assert near[i..] == [];
    d := CreateRecord(feat);
  }

  /** An input entry is novel exactly when its token is not the token of any known entry. */
  lemma {:induction false} NovelMembers(known: seq<Street>, potential: seq<Street>, tok: string -> string)
    ensures forall x :: x in Novel(known, potential, tok) <==>
      x in potential && tok(x.display) !in Tokens(known, tok)
  {
    if potential != [] {
      NovelMembers(known, potential[1..], tok);
      assert potential == [potential[0]] + potential[1..];
    }
  }

  /** One more input entry extends the novel list by that entry exactly when its token is new. */
  lemma NovelStep(known: seq<Street>, input: seq<Street>, i: int, tok: string -> string)
    requires 0 <= i < |input|
    ensures Novel(known, input[..i + 1], tok) ==
      Novel(known, input[..i], tok) + (if tok(input[i].display) in Tokens(known, tok) then [] else [input[i]])
  {
    assert input[..i + 1] == input[..i] + [input[i]];
    NovelAppend(known, input[..i], [input[i]], tok);
    assert [input[i]][1..] == [];
  }

  /** Filtering by input entries distributes over concatenation of the input. */
  lemma {:induction false} NovelAppend(known: seq<Street>, a: seq<Street>, b: seq<Street>, tok: string -> string)
    ensures Novel(known, a + b, tok) == Novel(known, a, tok) + Novel(known, b, tok)
  {
    if a == [] {
      assert a + b == b;
    } else {
      assert (a + b)[1..] == a[1..] + b;
      NovelAppend(known, a[1..], b, tok);
    }
  }

  /** A row survives the distance filter exactly when it lies strictly closer than the cut-off. */
  lemma {:induction false} NearbyMembers(feat: Feature, rows: seq<Candidate>, dist: (Point, Point) -> real)
    ensures forall c :: c in Nearby(feat, rows, dist) <==>
      c in rows && dist(feat.geometry, c.feat.geometry) < CutoffKm
  {
    if rows != [] {
      NearbyMembers(feat, rows[1..], dist);
      assert rows == [rows[0]] + rows[1..];
    }
  }

  /** Dropping candidates at or beyond the cut-off, anywhere in the list, changes no decision. */
  lemma {:induction false} NearbySkipsFar(feat: Feature, a: seq<Candidate>, c: Candidate, b: seq<Candidate>,
                                          dist: (Point, Point) -> real)
    requires !IsNear(feat, c, dist)
    ensures Nearby(feat, a + [c] + b, dist) == Nearby(feat, a + b, dist)
  {
    if a == [] {
      assert a + [c] + b == [c] + b;
      assert ([c] + b)[1..] == b;
      assert a + b == b;
    } else {
      assert (a + [c] + b)[0] == a[0] && (a + b)[0] == a[0];
      assert (a + [c] + b)[1..] == a[1..] + [c] + b;
      assert (a + b)[1..] == a[1..] + b;
      NearbySkipsFar(feat, a[1..], c, b, dist);
    }
  }

  /** A candidate at exactly the cut-off distance, or farther, never influences the decision. */
  lemma DecideIgnoresFar(feat: Feature, a: seq<Candidate>, c: Candidate, b: seq<Candidate>,
                         tok: string -> string, dist: (Point, Point) -> real)
    requires dist(feat.geometry, c.feat.geometry) >= CutoffKm
    ensures Decide(feat, a + [c] + b, tok, dist) == Decide(feat, a + b, tok, dist)
  {
    NearbySkipsFar(feat, a, c, b, dist);
    if a + b == [] {
      assert Nearby(feat, a + b, dist) == [];
    }
  }

  /** Row `i` is the first row, in store order, that is near and shares a token with the input. */
  predicate Decides(feat: Feature, rows: seq<Candidate>, tok: string -> string,
                    dist: (Point, Point) -> real, i: int)
  {
    && 0 <= i < |rows|
    && IsNear(feat, rows[i], dist) && Matches(rows[i], Tokens(feat.props.street, tok))
    && forall k :: 0 <= k < i ==>
         !(IsNear(feat, rows[k], dist) && Matches(rows[k], Tokens(feat.props.street, tok)))
  }

  /** The nearby candidates keep store order, so the first near matching row is the first match among them. */
  lemma {:induction false} FirstMatchNearby(feat: Feature, rows: seq<Candidate>, potentials: seq<string>,
                                            dist: (Point, Point) -> real, i: int)
    requires 0 <= i < |rows| && IsNear(feat, rows[i], dist) && Matches(rows[i], potentials)
    requires forall k :: 0 <= k < i ==> !(IsNear(feat, rows[k], dist) && Matches(rows[k], potentials))
    ensures FirstMatch(Nearby(feat, rows, dist), potentials) == Some(rows[i])
  {
    var head := if IsNear(feat, rows[0], dist) then [rows[0]] else [];
    var tail := Nearby(feat, rows[1..], dist);
    assert Nearby(feat, rows, dist) == head + tail;
    if i == 0 {
      assert (head + tail)[0] == rows[0];
    } else {
      assert rows[1..][i - 1] == rows[i];
      FirstMatchNearby(feat, rows[1..], potentials, dist, i - 1);
      if head != [] {
        assert !Matches(rows[0], potentials);
        assert (head + tail)[0] == rows[0];
        assert (head + tail)[1..] == tail;
      } else {
        assert head + tail == tail;
      }
    }
  }

  /** No near row matching means no match among the nearby candidates. */
  lemma {:induction false} FirstMatchNearbyNone(feat: Feature, rows: seq<Candidate>, potentials: seq<string>,
                                                dist: (Point, Point) -> real)
    requires forall k :: 0 <= k < |rows| ==> !(IsNear(feat, rows[k], dist) && Matches(rows[k], potentials))
    ensures FirstMatch(Nearby(feat, rows, dist), potentials) == None
  {
    if rows != [] {
      var head := if IsNear(feat, rows[0], dist) then [rows[0]] else [];
      var tail := Nearby(feat, rows[1..], dist);
      assert Nearby(feat, rows, dist) == head + tail;
      assert forall k :: 0 <= k < |rows| - 1 ==> rows[1..][k] == rows[k + 1];
      FirstMatchNearbyNone(feat, rows[1..], potentials, dist);
      if head != [] {
        assert (head + tail)[0] == rows[0];
        assert (head + tail)[1..] == tail;
      } else {
        assert head + tail == tail;
      }
    }
  }

  /**
   * The first row, in store order, that is strictly within the cut-off and
   * shares a token with the input decides the outcome: the known record is
   * extended, or the input is dropped when it adds nothing.
   */
  lemma DecideFirstMatch(feat: Feature, rows: seq<Candidate>, tok: string -> string,
                         dist: (Point, Point) -> real, i: int)
    requires Decides(feat, rows, tok, dist, i)
    ensures Decide(feat, rows, tok, dist) == ModifyOutcome(rows[i].feat, feat, tok)
  {
    FirstMatchNearby(feat, rows, Tokens(feat.props.street, tok), dist, i);
  }

  /** With no near row sharing a token with the input, the input is created. */
  lemma DecideNoMatch(feat: Feature, rows: seq<Candidate>, tok: string -> string,
                      dist: (Point, Point) -> real)
    requires forall k :: 0 <= k < |rows| ==>
      !(IsNear(feat, rows[k], dist) && Matches(rows[k], Tokens(feat.props.street, tok)))
    ensures Decide(feat, rows, tok, dist) == CreateRecord(feat)
  {
    FirstMatchNearbyNone(feat, rows, Tokens(feat.props.street, tok), dist);
  }

  /** The earliest index at or before `i` whose row is near and matching. */
  function FirstNearMatch(feat: Feature, rows: seq<Candidate>, tok: string -> string,
                          dist: (Point, Point) -> real, i: int): (f: int)
    requires 0 <= i < |rows|
    requires IsNear(feat, rows[i], dist) && Matches(rows[i], Tokens(feat.props.street, tok))
    ensures f <= i && Decides(feat, rows, tok, dist, f)
    decreases i
  {
    if exists k :: 0 <= k < i && IsNear(feat, rows[k], dist) && Matches(rows[k], Tokens(feat.props.street, tok)) then
      var k :| 0 <= k < i && IsNear(feat, rows[k], dist) && Matches(rows[k], Tokens(feat.props.street, tok));
      FirstNearMatch(feat, rows, tok, dist, k)
    else i
  }

  /** Rows after a near matching row are never consulted. */
  lemma DecideIgnoresLater(feat: Feature, rows: seq<Candidate>, later: seq<Candidate>,
                           tok: string -> string, dist: (Point, Point) -> real, i: int)
    requires 0 <= i < |rows|
    requires IsNear(feat, rows[i], dist) && Matches(rows[i], Tokens(feat.props.street, tok))
    ensures Decide(feat, rows + later, tok, dist) == Decide(feat, rows, tok, dist)
  {
    var f := FirstNearMatch(feat, rows, tok, dist, i);
    DecideFirstMatch(feat, rows, tok, dist, f);
    assert forall k :: 0 <= k <= f ==> (rows + later)[k] == rows[k];
    DecideFirstMatch(feat, rows + later, tok, dist, f);
  }

  /**
   * The input is dropped exactly when some row decides and every input
   * street token is already the token of one of that record's streets.
   */
  lemma DecideDrop(feat: Feature, rows: seq<Candidate>, tok: string -> string,
                   dist: (Point, Point) -> real)
    ensures Decide(feat, rows, tok, dist).Drop? <==>
      exists i :: Decides(feat, rows, tok, dist, i) &&
        forall p :: p in feat.props.street ==> tok(p.display) in Tokens(rows[i].feat.props.street, tok)
  {
    var pot := Tokens(feat.props.street, tok);
    if i :| 0 <= i < |rows| && IsNear(feat, rows[i], dist) && Matches(rows[i], pot) {
      var f := FirstNearMatch(feat, rows, tok, dist, i);
      DecideFirstMatch(feat, rows, tok, dist, f);
      ModifyOutcomeShape(rows[f].feat, feat, tok);
      forall g | Decides(feat, rows, tok, dist, g) ensures g == f {
        if g < f {
          assert false;
        } else if f < g {
          assert false;
        }
      }
    } else {
      DecideNoMatch(feat, rows, tok, dist);
    }
  }
}
