/** The only writers of a line's decision (core/decide.py), and what no writer ever undoes. */
module Decide {
  import opened Wrappers
  import opened Manifest
  import opened Pairing
  import opened Units

  /** This text is the line's decision, and it stands. */
  function Accept(line: Line, text: string): Line {
    line.(corrected := Some(text), status := Corrected)
  }

  /** The line goes back to its source; the reason is recorded into an empty trace only. */
  function FallBack(line: Line, reason: string): Line {
    line.(corrected := Some(line.text), status := Fallback,
          reason := if Truthy(line.reason) then line.reason else Some(reason))
  }

  /** Respells a decision that already stands. */
  function Renormalise(line: Line, text: string): Line {
    line.(corrected := Some(text))
  }

  /** A line is undecided until it has a decided text, and a fallen line shows its source. */
  ghost predicate Decided(line: Line) {
    && (line.status.Pending? <==> line.corrected.None?)
    && (line.status.Fallback? ==> line.corrected == Some(line.text))
  }

  /** Identity, position and source text are those of the same physical line. */
  ghost predicate SameLine(l: Line, l': Line) {
    && l'.Ref() == l.Ref() && l'.blockId == l.blockId && l'.order == l.order && l'.text == l.text
  }

  /** A line never comes to point anywhere new. */
  ghost predicate PointsNowhereNew(l: Line, l': Line) {
    && (l'.PairRef().Some? ==> l.Points(l'.PairRef().value))
    && (l'.ForwardRef().Some? ==> l.Points(l'.ForwardRef().value))
  }

  /** What every step of a run keeps of one line: a decided line stays decided, a fallen line
      stays fallen, at its source text, and under the reason first recorded; links are at most
      severed. */
  ghost predicate Outlives(l: Line, l': Line) {
    && SameLine(l, l') && PointsNowhereNew(l, l')
    && (!l.status.Pending? ==> !l'.status.Pending?)
    && (l.status.Fallback? ==> l'.status.Fallback?)
    && (l.status.Fallback? && l.corrected == Some(l.text) ==> l'.corrected == Some(l'.text))
    && (l.status.Fallback? && Truthy(l.reason) ==> l'.reason == l.reason)
  }

  ghost predicate Later(m: Index, m': Index) {
    m'.Keys == m.Keys && forall r {:trigger m'[r]} {:trigger m[r]} :: r in m ==> Outlives(m[r], m'[r])
  }

  lemma LaterTransitive(m: Index, m': Index, m'': Index)
    requires Later(m, m') && Later(m', m'')
    ensures Later(m, m'')
  {
    forall r | r in m ensures Outlives(m[r], m''[r]) {
      assert Outlives(m[r], m'[r]) && Outlives(m'[r], m''[r]);
    }
  }

  /** Lines of other pages keep their role, and those that no unit reaches are left as they are. */
  ghost predicate Spared(m: Index, m': Index, page: string) {
    forall r: LineRef {:trigger m'[r]} {:trigger m[r]} :: r in m && r.page != page ==>
      r in m' && m'[r].role == m[r].role && (m[r].role.NoRole? ==> m'[r] == m[r])
  }

  lemma SparedTransitive(m: Index, m': Index, m'': Index, page: string)
    requires Spared(m, m', page) && Spared(m', m'', page)
    ensures Spared(m, m'', page)
  {
    forall r: LineRef | r in m && r.page != page
      ensures r in m'' && m''[r].role == m[r].role && (m[r].role.NoRole? ==> m''[r] == m[r])
    {
      assert m'[r].role == m[r].role;
    }
  }

  /** The line fell, whatever for. */
  ghost predicate Fell(l: Line, l': Line) {
    && l' == l.(corrected := Some(l.text), status := Fallback, reason := l'.reason)
    && (Truthy(l.reason) ==> l'.reason == l.reason)
  }

  /** Exactly the lines in `fallen` fell. */
  ghost predicate FallenExactly(m: Index, m': Index, fallen: set<LineRef>) {
    && m'.Keys == m.Keys
    && forall r {:trigger m'[r]} :: r in m ==> if r in fallen then Fell(m[r], m'[r]) else m'[r] == m[r]
  }

  lemma FallTwice(m: Index, m': Index, m'': Index, one: set<LineRef>, two: set<LineRef>)
    requires FallenExactly(m, m', one) && FallenExactly(m', m'', two)
    ensures FallenExactly(m, m'', one + two)
  {
    forall r | r in m ensures if r in one + two then Fell(m[r], m''[r]) else m''[r] == m[r] {
      assert if r in one then Fell(m[r], m'[r]) else m'[r] == m[r];
      assert if r in two then Fell(m'[r], m''[r]) else m''[r] == m'[r];
    }
  }

  lemma FallenIsLater(m: Index, m': Index, fallen: set<LineRef>)
    requires FallenExactly(m, m', fallen)
    ensures Later(m, m')
  {
    forall r | r in m ensures Outlives(m[r], m'[r]) {
      assert if r in fallen then Fell(m[r], m'[r]) else m'[r] == m[r];
    }
  }
}
