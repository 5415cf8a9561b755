/** The document check as the service runs it: one look after the other, until something breaks. */
module CheckOrder {
  import opened SchemaCompat
  import opened OpenApiCompat
  import opened ComparisonEnding

  /** One look: two schemas compared, or a piece of the surface found kept or not. */
  datatype Look = Compare(pair: Comparison) | Surface(kept: bool)

  function TakeLook(was: Document, now: Document, look: Look, fuel: nat): Verdict {
    match look
    case Compare(c) => CheckPair(was, now, c, fuel)
    case Surface(kept) => if kept then Accept else Reject
  }

  /** The first look that breaks ends the check. */
  function CheckInOrder(was: Document, now: Document, looks: seq<Look>, fuel: nat): Verdict {
    if looks == [] then Accept
    else match TakeLook(was, now, looks[0], fuel)
      case Accept => CheckInOrder(was, now, looks[1..], fuel)
      case Reject => Reject
      case Unfinished => Unfinished
  }

  // --- When it ends ------------------------------------------------------------------------

  ghost predicate Loops(was: Document, now: Document, look: Look) {
    look.Compare? && PairLoops(was, now, look.pair)
  }

  ghost predicate Breaks(was: Document, now: Document, look: Look) {
    match look
    case Compare(c) => !NoClash(SpecsOf(was, now), c.was, c.now, c.isRequest)
    case Surface(kept) => !kept
  }

  ghost predicate Stops(was: Document, now: Document, look: Look) {
    Breaks(was, now, look) && !Loops(was, now, look)
  }

  ghost predicate OrderEnds(was: Document, now: Document, looks: seq<Look>) {
    exists fuel: nat :: CheckInOrder(was, now, looks, fuel) != Unfinished
  }

  /** Whatever would go round for ever comes after a look that ends the check. */
  ghost predicate LoopsComeLate(was: Document, now: Document, looks: seq<Look>) {
    forall i :: 0 <= i < |looks| && Loops(was, now, looks[i]) ==> StopsBefore(was, now, looks, i)
  }

  ghost predicate StopsBefore(was: Document, now: Document, looks: seq<Look>, i: nat)
    requires i <= |looks|
  {
    exists k :: 0 <= k < i && Stops(was, now, looks[k])
  }

  lemma LookVerdict(was: Document, now: Document, look: Look)
    ensures (exists fuel: nat :: TakeLook(was, now, look, fuel) != Unfinished) <==> !Loops(was, now, look)
    ensures forall fuel: nat :: TakeLook(was, now, look, fuel) != Unfinished ==>
              (TakeLook(was, now, look, fuel) == Reject <==> Breaks(was, now, look))
  {
    match look
    case Surface(kept) =>
      assert TakeLook(was, now, look, 0) != Unfinished;
    case Compare(c) =>
      EndsIffNoLoop(SpecsOf(was, now), c.was, c.now, c.isRequest);
      if fuel: nat :| Check(SpecsOf(was, now), c.was, c.now, c.isRequest, fuel) != Unfinished {
        assert TakeLook(was, now, look, fuel) != Unfinished;
      }
      forall fuel: nat | TakeLook(was, now, look, fuel) != Unfinished
        ensures TakeLook(was, now, look, fuel) == Reject <==> Breaks(was, now, look)
      {
        AcceptsIffNoClash(SpecsOf(was, now), c.was, c.now, c.isRequest, fuel);
      }
  }

  lemma LookStays(was: Document, now: Document, look: Look, fuel: nat, more: nat)
    requires fuel <= more && TakeLook(was, now, look, fuel) != Unfinished
    ensures TakeLook(was, now, look, more) == TakeLook(was, now, look, fuel)
  {
    match look
    case Surface(_) =>
    case Compare(c) => FuelIrrelevant(SpecsOf(was, now), c.was, c.now, c.isRequest, fuel, more);
  }

  lemma {:induction false} OrderStays(was: Document, now: Document, looks: seq<Look>, fuel: nat, more: nat)
    requires fuel <= more && CheckInOrder(was, now, looks, fuel) != Unfinished
    ensures CheckInOrder(was, now, looks, more) == CheckInOrder(was, now, looks, fuel)
    decreases |looks|
  {
    if looks != [] {
      LookStays(was, now, looks[0], fuel, more);
      if TakeLook(was, now, looks[0], fuel) == Accept {
        OrderStays(was, now, looks[1..], fuel, more);
      }
    }
  }

  /** One look and the rest: it must end, and either break or leave a rest that ends. */
  lemma OrderStep(was: Document, now: Document, looks: seq<Look>)
    requires looks != []
    ensures OrderEnds(was, now, looks) <==>
              !Loops(was, now, looks[0]) && (Breaks(was, now, looks[0]) || OrderEnds(was, now, looks[1..]))
  {
    LookVerdict(was, now, looks[0]);
    if fuel: nat :| CheckInOrder(was, now, looks, fuel) != Unfinished {
      assert TakeLook(was, now, looks[0], fuel) != Unfinished;
      if !Breaks(was, now, looks[0]) {
        assert CheckInOrder(was, now, looks[1..], fuel) != Unfinished;
      }
    }
    if !Loops(was, now, looks[0]) {
      var n: nat :| TakeLook(was, now, looks[0], n) != Unfinished;
      if Breaks(was, now, looks[0]) {
        assert CheckInOrder(was, now, looks, n) == Reject;
      } else if m: nat :| CheckInOrder(was, now, looks[1..], m) != Unfinished {
        var enough := if n < m then m else n;
        LookStays(was, now, looks[0], n, enough);
        OrderStays(was, now, looks[1..], m, enough);
        assert CheckInOrder(was, now, looks, enough) != Unfinished;
      }
    }
  }

  lemma LateStep(was: Document, now: Document, looks: seq<Look>)
    requires looks != []
    ensures LoopsComeLate(was, now, looks) <==>
              !Loops(was, now, looks[0]) && (Breaks(was, now, looks[0]) || LoopsComeLate(was, now, looks[1..]))
  {
    var rest := looks[1..];
    if LoopsComeLate(was, now, looks) {
      assert !Loops(was, now, looks[0]);
      if !Breaks(was, now, looks[0]) {
        forall i | 0 <= i < |rest| && Loops(was, now, rest[i]) ensures StopsBefore(was, now, rest, i) {
          assert Loops(was, now, looks[i + 1]);
          var k :| 0 <= k < i + 1 && Stops(was, now, looks[k]);
          assert rest[k - 1] == looks[k];
        }
      }
    }
    if !Loops(was, now, looks[0]) && (Breaks(was, now, looks[0]) || LoopsComeLate(was, now, rest)) {
      forall i | 0 <= i < |looks| && Loops(was, now, looks[i]) ensures StopsBefore(was, now, looks, i) {
        if Breaks(was, now, looks[0]) {
          assert Stops(was, now, looks[0]);
        } else {
          assert rest[i - 1] == looks[i];
          var k :| 0 <= k < i - 1 && Stops(was, now, rest[k]);
          assert looks[k + 1] == rest[k];
        }
      }
    }
  }

  /** In a given order the check ends if and only if whatever would go round for ever comes after a look
      that ends it. */
  lemma {:induction false} OrderEndsIff(was: Document, now: Document, looks: seq<Look>)
    ensures OrderEnds(was, now, looks) <==> LoopsComeLate(was, now, looks)
    decreases |looks|
  {
    if looks == [] {
      assert CheckInOrder(was, now, looks, 0) == Accept;
    } else {
      OrderStep(was, now, looks);
      LateStep(was, now, looks);
      OrderEndsIff(was, now, looks[1..]);
    }
  }

  // --- Every order gives the verdict ------------------------------------------------------

  lemma {:induction false} OrderConcat(was: Document, now: Document, a: seq<Look>, b: seq<Look>, fuel: nat)
    ensures CheckInOrder(was, now, a + b, fuel) ==
            match CheckInOrder(was, now, a, fuel) case Accept => CheckInOrder(was, now, b, fuel) case v => v
    decreases |a|
  {
    if a == [] {
      assert a + b == b;
    } else {
      assert (a + b)[1..] == a[1..] + b;
      OrderConcat(was, now, a[1..], b, fuel);
    }
  }

  /** When every look ends, the verdict is a matter of which there are, not of their order. */
  lemma {:induction false} OrderOfEnding(was: Document, now: Document, looks: seq<Look>, fuel: nat)
    requires forall look :: look in looks ==> TakeLook(was, now, look, fuel) != Unfinished
    ensures CheckInOrder(was, now, looks, fuel) ==
            if exists look :: look in looks && TakeLook(was, now, look, fuel) == Reject then Reject else Accept
    decreases |looks|
  {
    if looks != [] {
      OrderOfEnding(was, now, looks[1..], fuel);
      assert looks == [looks[0]] + looks[1..];
      if look :| look in looks && TakeLook(was, now, look, fuel) == Reject {
        assert look == looks[0] || look in looks[1..];
      }
    }
  }

  /** The looks are at exactly these pairs. */
  ghost predicate LooksAt(looks: seq<Look>, pairs: set<Comparison>) {
    forall c :: c in pairs <==> Compare(c) in looks
  }

  /** First the named schemas, then the paths with their surface, each in any order. */
  ghost predicate Lists(was: Document, now: Document, request: set<string>, named: seq<Look>, paths: seq<Look>) {
    && LooksAt(named, NamedPairs(was, now, request)) && LooksAt(paths, PathPairs(was, now))
    && (forall look :: look in named ==> look.Compare?)
    && (SurfaceKept(was, now) <==> Surface(false) !in paths)
  }

  lemma PairsInOrder(was: Document, now: Document, looks: seq<Look>, pairs: set<Comparison>, fuel: nat)
    requires LooksAt(looks, pairs) && CheckAll(was, now, pairs, fuel) != Unfinished
    ensures CheckInOrder(was, now, looks, fuel) ==
            if CheckAll(was, now, pairs, fuel) == Reject || Surface(false) in looks then Reject else Accept
  {
    forall look | look in looks ensures TakeLook(was, now, look, fuel) != Unfinished {
      if look.Compare? {
        assert look.pair in pairs;
      }
    }
    OrderOfEnding(was, now, looks, fuel);
    if CheckAll(was, now, pairs, fuel) == Reject {
      var c :| c in pairs && CheckPair(was, now, c, fuel) == Reject;
      assert TakeLook(was, now, Compare(c), fuel) == Reject;
    } else if Surface(false) in looks {
      assert TakeLook(was, now, Surface(false), fuel) == Reject;
    } else {
      forall look | look in looks ensures TakeLook(was, now, look, fuel) != Reject {
        if look.Compare? {
          assert look.pair in pairs;
        }
      }
    }
  }

  /** Whatever the order of the named schemas and of the paths: once the check of the documents has a
      verdict, the service reaches the same one. */
  lemma AnyOrderAgrees(was: Document, now: Document, request: set<string>, named: seq<Look>, paths: seq<Look>, fuel: nat)
    requires Lists(was, now, request, named, paths) && CheckDocuments(was, now, request, fuel) != Unfinished
    ensures CheckInOrder(was, now, named + paths, fuel) == CheckDocuments(was, now, request, fuel)
  {
    OrderConcat(was, now, named, paths, fuel);
    PairsInOrder(was, now, named, NamedPairs(was, now, request), fuel);
    if CheckAll(was, now, NamedPairs(was, now, request), fuel) == Accept {
      PairsInOrder(was, now, paths, PathPairs(was, now), fuel);
    }
  }
}
