/**
 * lodash `uniqBy(list, 'display')` on street lists: keep the first entry
 * for each display string, in the original order.
 */
module UniqBy {
  import opened ConflateTypes

  /** The display strings that occur in a street list. */
  function Displays(s: seq<Street>): set<string>
  {
    set x | x in s :: x.display
  }

  /** No two entries of the list share a display string. */
  predicate DistinctDisplays(s: seq<Street>)
  {
    forall i, j :: 0 <= i < j < |s| ==> s[i].display != s[j].display
  }

  /** The entry at index `i` is the first one in `s` with its display string. */
  predicate FirstOfDisplay(s: seq<Street>, i: int)
    requires 0 <= i < |s|
  {
    forall k :: 0 <= k < i ==> s[k].display != s[i].display
  }

  /**
   * The scan uniqBy performs: walk the list once, keeping an entry when its
   * display string has not been seen yet.
   */
  function UniqFrom(s: seq<Street>, seen: set<string>): (r: seq<Street>)
    ensures forall x :: x in r ==> x in s && x.display !in seen
    ensures DistinctDisplays(r)
    ensures |r| <= |s|
  {
    if s == [] then []
    else if s[0].display in seen then UniqFrom(s[1..], seen)
    else [s[0]] + UniqFrom(s[1..], seen + {s[0].display})
  }

  function UniqByDisplay(s: seq<Street>): (r: seq<Street>)
  {
    UniqFrom(s, {})
  }

  /**
   * Reference definition, independent of the scan: the entries of `s`
   * whose display string does not occur earlier in `s`, in order.
   */
  function KeepFirst(s: seq<Street>): seq<Street>
  {
    if s == [] then []
    else
      var init := s[..|s| - 1];
      KeepFirst(init) + (if s[|s| - 1].display in Displays(init) then [] else [s[|s| - 1]])
  }

  lemma DisplaysAppend(a: seq<Street>, b: seq<Street>)
    ensures Displays(a + b) == Displays(a) + Displays(b)
  {
    forall d | d in Displays(a + b) ensures d in Displays(a) + Displays(b) {
      var x :| x in a + b && x.display == d;
    }
    forall d | d in Displays(a) + Displays(b) ensures d in Displays(a + b) {
      if d in Displays(a) {
        var x :| x in a && x.display == d;
        assert x in a + b;
      } else {
        var x :| x in b && x.display == d;
        assert x in a + b;
      }
    }
  }

  /** The scan over a concatenation is the scan of the first part followed by the scan of the second, started with everything the first part showed. */
  lemma {:induction false} UniqFromAppend(a: seq<Street>, b: seq<Street>, seen: set<string>)
    ensures UniqFrom(a + b, seen) == UniqFrom(a, seen) + UniqFrom(b, seen + Displays(a))
  {
    if a == [] {
      assert a + b == b;
      assert Displays(a) == {};
      assert seen + Displays(a) == seen;
    } else {
      assert (a + b)[0] == a[0];
      assert (a + b)[1..] == a[1..] + b;
      DisplaysAppend([a[0]], a[1..]);
      assert [a[0]] + a[1..] == a;
      assert Displays([a[0]]) == {a[0].display};
      if a[0].display in seen {
        UniqFromAppend(a[1..], b, seen);
        assert seen + Displays(a[1..]) == seen + Displays(a);
      } else {
        UniqFromAppend(a[1..], b, seen + {a[0].display});
        assert seen + {a[0].display} + Displays(a[1..]) == seen + Displays(a);
      }
    }
  }

  /** Entries whose display strings were all seen already are all dropped. */
  lemma {:induction false} UniqFromAllSeen(s: seq<Street>, seen: set<string>)
    requires Displays(s) <= seen
    ensures UniqFrom(s, seen) == []
  {
    if s != [] {
      assert s[0] in s;
      assert Displays(s[1..]) <= Displays(s) by {
        forall d | d in Displays(s[1..]) ensures d in Displays(s) {
          var x :| x in s[1..] && x.display == d;
          assert x in s;
        }
      }
      UniqFromAllSeen(s[1..], seen);
    }
  }

  /** Entries whose display strings are all unseen and distinct are all kept. */
  lemma {:induction false} UniqFromNoneSeen(s: seq<Street>, seen: set<string>)
    requires DistinctDisplays(s)
    requires Displays(s) !! seen
    ensures UniqFrom(s, seen) == s
  {
    if s != [] {
      var rest := s[1..];
      assert s[0] in s;
      assert s[0].display !in seen;
      assert DistinctDisplays(rest) by {
        forall i, j | 0 <= i < j < |rest| ensures rest[i].display != rest[j].display {
          assert rest[i] == s[i + 1] && rest[j] == s[j + 1];
        }
      }
      assert Displays(rest) !! seen + {s[0].display} by {
        forall d | d in Displays(rest) ensures d !in seen + {s[0].display} {
          var x :| x in rest && x.display == d;
          var j :| 0 <= j < |rest| && rest[j] == x;
          assert s[j + 1] == x;
          assert x in s;
        }
      }
      UniqFromNoneSeen(rest, seen + {s[0].display});
      assert [s[0]] + rest == s;
    }
  }

  /** uniqBy agrees with the reference definition: first occurrences, in order. */
  lemma {:induction false} UniqByIsKeepFirst(s: seq<Street>)
    ensures UniqByDisplay(s) == KeepFirst(s)
  {
    if s != [] {
      var init, x := s[..|s| - 1], s[|s| - 1];
      assert s == init + [x];
      UniqByIsKeepFirst(init);
      UniqFromAppend(init, [x], {});
      assert {} + Displays(init) == Displays(init);
    }
  }

  /** Every first occurrence of a display string is kept. */
  lemma {:induction false} KeepFirstKeeps(s: seq<Street>, i: int)
    requires 0 <= i < |s| && FirstOfDisplay(s, i)
    ensures s[i] in KeepFirst(s)
  {
    var init, n := s[..|s| - 1], |s| - 1;
    if i < n {
      assert init[i] == s[i];
      assert FirstOfDisplay(init, i) by {
        forall k | 0 <= k < i ensures init[k].display != init[i].display {
          assert init[k] == s[k];
        }
      }
      KeepFirstKeeps(init, i);
    }
  }

  /** Every kept entry is the first occurrence of its display string. */
  lemma {:induction false} KeepFirstOnlyFirsts(s: seq<Street>, x: Street)
    requires x in KeepFirst(s)
    ensures exists i :: 0 <= i < |s| && FirstOfDisplay(s, i) && s[i] == x
  {
    var init, n := s[..|s| - 1], |s| - 1;
    if x in KeepFirst(init) {
      KeepFirstOnlyFirsts(init, x);
      var i :| 0 <= i < |init| && FirstOfDisplay(init, i) && init[i] == x;
      assert s[i] == init[i];
      assert FirstOfDisplay(s, i) by {
        forall k | 0 <= k < i ensures s[k].display != s[i].display {
          assert s[k] == init[k];
        }
      }
    } else {
      assert x == s[n] && s[n].display !in Displays(init);
      assert FirstOfDisplay(s, n) by {
        forall k | 0 <= k < n ensures s[k].display != s[n].display {
          assert s[k] == init[k];
          assert init[k] in init;
        }
      }
    }
  }

  /** Deduplication keeps every display string of the input. */
  lemma UniqByDisplays(s: seq<Street>)
    ensures Displays(UniqByDisplay(s)) == Displays(s)
  {
    var r := UniqByDisplay(s);
    UniqByIsKeepFirst(s);
    forall d | d in Displays(s) ensures d in Displays(r) {
      var x :| x in s && x.display == d;
      var i :| 0 <= i < |s| && s[i] == x;
      var j := FirstIndex(s, d, i);
      KeepFirstKeeps(s, j);
      assert s[j] in r;
    }
  }

  /** The earliest index of `s` whose display string is `d`, given one such index `i`. */
  function FirstIndex(s: seq<Street>, d: string, i: nat): (j: nat)
    requires i < |s| && s[i].display == d
    ensures j <= i && s[j].display == d && FirstOfDisplay(s, j)
  {
    if exists k :: 0 <= k < i && s[k].display == d then
      var k :| 0 <= k < i && s[k].display == d;
      FirstIndex(s, d, k)
    else i
  }

  /** A list without repeated display strings is left as it is. */
  lemma UniqByDistinctUnchanged(s: seq<Street>)
    requires DistinctDisplays(s)
    ensures UniqByDisplay(s) == s
  {
    UniqFromNoneSeen(s, {});
  }

  /** Deduplicating twice is deduplicating once. */
  lemma UniqByIdempotent(s: seq<Street>)
    ensures UniqByDisplay(UniqByDisplay(s)) == UniqByDisplay(s)
  {
    UniqByDistinctUnchanged(UniqByDisplay(s));
  }

  /**
   * Repeating a prefix does not change the deduplicated list: after `a`
   * every display string of the copy has been seen.
   */
  lemma UniqByRepeatedPrefix(a: seq<Street>, b: seq<Street>)
    ensures UniqByDisplay(a + a + b) == UniqByDisplay(a + b)
  {
    calc {
      UniqByDisplay(a + a + b);
    ==  { assert a + a + b == a + (a + b); }
      UniqFrom(a + (a + b), {});
    ==  { UniqFromAppend(a, a + b, {}); }
      UniqFrom(a, {}) + UniqFrom(a + b, {} + Displays(a));
    ==  { assert {} + Displays(a) == Displays(a); }
      UniqFrom(a, {}) + UniqFrom(a + b, Displays(a));
    ==  { UniqFromAppend(a, b, Displays(a));
          assert Displays(a) + Displays(a) == Displays(a);
          UniqFromAllSeen(a, Displays(a)); }
      UniqFrom(a, {}) + UniqFrom(b, Displays(a));
    ==  { UniqFromAppend(a, b, {}); assert {} + Displays(a) == Displays(a); }
      UniqByDisplay(a + b);
    }
  }
}
