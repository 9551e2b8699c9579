/** The hyphen units of a freshly linked page: each is one run of consecutive text-bearing lines
    (core/pairing.py read with core/units.py). */
module LinkedUnits {
  import opened Wrappers
  import opened Manifest
  import opened Pairing
  import opened Units
  import opened WindowPlanner

  /** A longest stretch of text-bearing lines each continuing onto the next. */
  ghost predicate Run(linked: seq<Line>, at: seq<nat>, a: nat, b: nat) {
    && a <= b < |at| && !Down(linked, at, a - 1) && !Down(linked, at, b)
    && forall i :: a <= i < b ==> Down(linked, at, i)
  }

  ghost function Members(linked: seq<Line>, at: seq<nat>, a: nat, b: nat): set<LineRef>
    requires a <= b < |at| && forall j :: 0 <= j < |at| ==> at[j] < |linked|
  {
    set i | a <= i <= b :: linked[at[i]].Ref()
  }

  lemma {:induction false} StretchUp(linked: seq<Line>, at: seq<nat>, i: nat) returns (a: nat)
    requires i < |at|
    ensures a <= i && !Down(linked, at, a - 1) && forall k :: a <= k < i ==> Down(linked, at, k)
  {
    if Down(linked, at, i - 1) { a := StretchUp(linked, at, i - 1); } else { a := i; }
  }

  lemma {:induction false} StretchDown(linked: seq<Line>, at: seq<nat>, i: nat) returns (b: nat)
    requires i < |at|
    ensures i <= b < |at| && !Down(linked, at, b) && forall k :: i <= k < b ==> Down(linked, at, k)
    decreases |at| - i
  {
    if Down(linked, at, i) { b := StretchDown(linked, at, i + 1); } else { b := i; }
  }

  /** A pointer of the page joins two neighbours among its text-bearing lines. */
  lemma PointerIsStep(lines: seq<Line>, canPair: (Line, Line) -> bool, linked: seq<Line>, at: seq<nat>, p: nat, q: nat)
    returns (i: nat)
    requires Parsed(lines) && LinkedFrom(lines, canPair, linked, at) && LinkerShaped(linked)
    requires p < |linked| && q < |linked| && linked[p].Points(linked[q].Ref())
    ensures Down(linked, at, i) && ((p == at[i] && q == at[i + 1]) || (q == at[i] && p == at[i + 1]))
  {
    PointerIsLink(linked, p, q);
    if ContinuesOnto(linked, p, q) {
      i := PlaceOf(lines, canPair, linked, at, p);
    } else {
      i := PlaceOf(lines, canPair, linked, at, q);
    }
  }

  lemma IsMember(linked: seq<Line>, at: seq<nat>, a: nat, b: nat, i: nat)
    requires DistinctIds(linked) && a <= b < |at| && i < |at|
    requires (forall j :: 0 <= j < |at| ==> at[j] < |linked|) && forall j, k :: 0 <= j < k < |at| ==> at[j] < at[k]
    ensures linked[at[i]].Ref() in Members(linked, at, a, b) <==> a <= i <= b
  {
    if linked[at[i]].Ref() in Members(linked, at, a, b) {
      var k :| a <= k <= b && linked[at[k]].Ref() == linked[at[i]].Ref();
      assert at[k] == at[i];
    }
  }

  lemma PointerStaysInside(lines: seq<Line>, canPair: (Line, Line) -> bool, linked: seq<Line>, at: seq<nat>, a: nat, b: nat,
                           p: nat, q: nat)
    requires Parsed(lines) && LinkedFrom(lines, canPair, linked, at) && LinkerShaped(linked) && Run(linked, at, a, b)
    requires p < |linked| && q < |linked| && linked[p].Points(linked[q].Ref())
    ensures linked[p].Ref() in Members(linked, at, a, b) <==> linked[q].Ref() in Members(linked, at, a, b)
  {
    var i := PointerIsStep(lines, canPair, linked, at, p, q);
    StepMembers(linked, at, a, b, i);
  }

  /** A run holds both ends of a step or neither. */
  lemma StepMembers(linked: seq<Line>, at: seq<nat>, a: nat, b: nat, i: nat)
    requires DistinctIds(linked) && Run(linked, at, a, b) && Down(linked, at, i)
    requires (forall j :: 0 <= j < |at| ==> at[j] < |linked|) && forall j, k :: 0 <= j < k < |at| ==> at[j] < at[k]
    ensures linked[at[i]].Ref() in Members(linked, at, a, b) <==> linked[at[i + 1]].Ref() in Members(linked, at, a, b)
  {
    IsMember(linked, at, a, b, i);
    IsMember(linked, at, a, b, i + 1);
    assert i + 1 == a ==> !Down(linked, at, i);
  }

  lemma RunIsClosed(lines: seq<Line>, canPair: (Line, Line) -> bool, linked: seq<Line>, at: seq<nat>, a: nat, b: nat)
    requires Parsed(lines) && LinkedFrom(lines, canPair, linked, at) && LinkerShaped(linked) && Run(linked, at, a, b)
    ensures Closed(ByRef(linked), Members(linked, at, a, b))
  {
    var m, s := ByRef(linked), Members(linked, at, a, b);
    forall x, y | x in m && y in m && m[x].Points(y) ensures x in s <==> y in s {
      var p := PositionOfRef(linked, x);
      var q := PositionOfRef(linked, y);
      PointerStaysInside(lines, canPair, linked, at, a, b, p, q);
    }
  }

  lemma StepTogether(lines: seq<Line>, canPair: (Line, Line) -> bool, linked: seq<Line>, at: seq<nat>, i: nat)
    requires Parsed(lines) && LinkedFrom(lines, canPair, linked, at) && DistinctIds(linked) && Down(linked, at, i)
    ensures SameUnit(ByRef(linked), linked[at[i]].Ref(), linked[at[i + 1]].Ref())
  {
    ByRefAt(linked);
    LinkingShapesEveryLine(lines, canPair, linked, at, i);
    var m, x, y := ByRef(linked), linked[at[i]].Ref(), linked[at[i + 1]].Ref();
    assert m[x].Points(y) && y in m;
  }

  lemma TogetherOnward(m: Index, x: LineRef, y: LineRef, z: LineRef)
    requires SameUnit(m, x, y) && SameUnit(m, y, z)
    ensures SameUnit(m, x, z)
  {
  }

  lemma TogetherBothWays(m: Index, x: LineRef, y: LineRef)
    requires SameUnit(m, x, y)
    ensures SameUnit(m, y, x)
  {
  }

  lemma {:induction false} ChainTogether(m: Index, refs: seq<LineRef>, i: nat, j: nat)
    requires i <= j < |refs| && forall k :: i < k <= j ==> SameUnit(m, refs[k - 1], refs[k])
    ensures SameUnit(m, refs[i], refs[j])
    decreases j - i
  {
    if i < j {
      ChainTogether(m, refs, i, j - 1);
      TogetherOnward(m, refs[i], refs[j - 1], refs[j]);
    }
  }

  /** The lines of a run hang together. */
  lemma RunHangsTogether(lines: seq<Line>, canPair: (Line, Line) -> bool, linked: seq<Line>, at: seq<nat>, i: nat, j: nat)
    requires Parsed(lines) && LinkedFrom(lines, canPair, linked, at) && DistinctIds(linked)
    requires i <= j < |at| && forall k :: i <= k < j ==> Down(linked, at, k)
    ensures SameUnit(ByRef(linked), linked[at[i]].Ref(), linked[at[j]].Ref())
  {
    var refs := seq(|at|, k requires 0 <= k < |at| => linked[at[k]].Ref());
    forall k | i < k <= j ensures SameUnit(ByRef(linked), refs[k - 1], refs[k]) {
      StepTogether(lines, canPair, linked, at, k - 1);
    }
    ChainTogether(ByRef(linked), refs, i, j);
  }

  lemma MemberIsInUnit(lines: seq<Line>, canPair: (Line, Line) -> bool, linked: seq<Line>, at: seq<nat>, a: nat, b: nat,
                       i: nat, k: nat)
    requires Parsed(lines) && LinkedFrom(lines, canPair, linked, at) && DistinctIds(linked)
    requires Run(linked, at, a, b) && a <= i <= b && a <= k <= b
    ensures linked[at[k]].Ref() in Unit(ByRef(linked), linked[at[i]].Ref())
  {
    ByRefAt(linked);
    if k <= i {
      RunHangsTogether(lines, canPair, linked, at, k, i);
      TogetherBothWays(ByRef(linked), linked[at[k]].Ref(), linked[at[i]].Ref());
    } else {
      RunHangsTogether(lines, canPair, linked, at, i, k);
    }
  }

  /** The roles along a run of at least two lines: the first keeps the role it was parsed with, which
      opens a word; the inner ones are BOTH; the last is PART2, unless it opens a word of its own. */
  ghost predicate RolesAlong(lines: seq<Line>, linked: seq<Line>, at: seq<nat>, a: nat, b: nat)
    requires |linked| == |lines| && Substantive(lines, at) && a <= b < |at|
  {
    && linked[at[a]].role == lines[at[a]].role
    && (a < b ==> OpensWord(lines[at[a]]))
    && (forall i {:trigger at[i]} :: a < i < b ==> linked[at[i]].role.Both?)
    && (a < b ==> linked[at[b]].role == if OpensWord(lines[at[b]]) then Both else Part2)
  }

  lemma RunRoles(lines: seq<Line>, canPair: (Line, Line) -> bool, linked: seq<Line>, at: seq<nat>, a: nat, b: nat)
    requires Parsed(lines) && LinkedFrom(lines, canPair, linked, at) && Run(linked, at, a, b)
    ensures RolesAlong(lines, linked, at, a, b)
  {
    RoleAt(lines, canPair, linked, at, a);
    RoleAt(lines, canPair, linked, at, b);
    forall i | a < i < b ensures linked[at[i]].role.Both? {
      assert Down(linked, at, i - 1);
      RoleAt(lines, canPair, linked, at, i);
    }
  }

  lemma RoleAt(lines: seq<Line>, canPair: (Line, Line) -> bool, linked: seq<Line>, at: seq<nat>, i: nat)
    requires Parsed(lines) && LinkedFrom(lines, canPair, linked, at) && i < |at|
    ensures linked[at[i]].role == (if !Down(linked, at, i - 1) then lines[at[i]].role
                                   else if OpensWord(lines[at[i]]) then Both else Part2)
    ensures Down(linked, at, i) ==> OpensWord(lines[at[i]])
  {
    LinkingShapesEveryLine(lines, canPair, linked, at, i);
  }

  /** Linking an unlinked page, any roles and any pairing policy: the unit of a text-bearing line is a
      run of consecutive text-bearing lines, with the roles of one. */
  lemma UnitIsARun(lines: seq<Line>, canPair: (Line, Line) -> bool, linked: seq<Line>, at: seq<nat>, i: nat)
    returns (a: nat, b: nat)
    requires Parsed(lines) && LinkedFrom(lines, canPair, linked, at) && i < |at|
    ensures a <= i <= b && Run(linked, at, a, b) && RolesAlong(lines, linked, at, a, b)
    ensures Unit(ByRef(linked), linked[at[i]].Ref()) == Members(linked, at, a, b)
  {
    a := StretchUp(linked, at, i);
    b := StretchDown(linked, at, i);
    RunRoles(lines, canPair, linked, at, a, b);
    RunIsUnit(lines, canPair, linked, at, a, b, i);
  }

  lemma RunIsUnit(lines: seq<Line>, canPair: (Line, Line) -> bool, linked: seq<Line>, at: seq<nat>, a: nat, b: nat, i: nat)
    requires Parsed(lines) && LinkedFrom(lines, canPair, linked, at) && Run(linked, at, a, b) && a <= i <= b
    ensures Unit(ByRef(linked), linked[at[i]].Ref()) == Members(linked, at, a, b)
  {
    LinkedPageIsShaped(lines, canPair, linked, at);
    RunIsClosed(lines, canPair, linked, at, a, b);
    IsMember(linked, at, a, b, i);
    var m, x, s := ByRef(linked), linked[at[i]].Ref(), Members(linked, at, a, b);
    forall y | y in s ensures y in Unit(m, x) {
      var k :| a <= k <= b && linked[at[k]].Ref() == y;
      MemberIsInUnit(lines, canPair, linked, at, a, b, i, k);
    }
    ClosedHoldsUnit(m, s, x);
  }

  lemma ClosedHoldsUnit(m: Index, s: set<LineRef>, x: LineRef)
    requires Closed(m, s) && x in s
    ensures Unit(m, x) <= s
  {
  }

  /** A blank line is a unit of its own. */
  lemma BlankIsAlone(lines: seq<Line>, canPair: (Line, Line) -> bool, linked: seq<Line>, at: seq<nat>, k: nat)
    requires Parsed(lines) && LinkedFrom(lines, canPair, linked, at) && k < |lines| && k !in at
    ensures Unit(ByRef(linked), linked[k].Ref()) == {linked[k].Ref()}
  {
    LinkedPageIsShaped(lines, canPair, linked, at);
    var m, r := ByRef(linked), linked[k].Ref();
    ByRefAt(linked);
    assert Closed(m, {r}) by {
      forall x, y | x in m && y in m && m[x].Points(y) ensures x == r <==> y == r {
        var p := PositionOfRef(linked, x);
        var q := PositionOfRef(linked, y);
        var i := PointerIsStep(lines, canPair, linked, at, p, q);
        assert at[i] in at && at[i + 1] in at;
      }
    }
  }
}
