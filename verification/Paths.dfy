/** Path components on unix (libstd/src/path.rs).

    A path is a byte sequence.  `Comps` is the reference meaning of a path: its list of
    components, obtained by splitting at separators.  `Components` is the double-ended
    iterator of the library, a state machine with a front and a back cursor that never
    builds that list.  The two are tied by `Rem`, the components an iterator still owes. */
module Paths {
  import opened Common

  const SEP: Byte := 47
  const DOT: Byte := 46

  datatype Component = RootDir | CurDir | ParentDir | Normal(name: Bytes)

  datatype State = Prefix | StartDir | Body | Done
  {
    function Rank(): nat {
      match this
      case Prefix => 0
      case StartDir => 1
      case Body => 2
      case Done => 3
    }
  }

  // ---------------------------------------------------------------- reference meaning

  /** The component a piece between separators stands for, as a list of at most one. */
  function Single(piece: Bytes): seq<Component> {
    if piece == [] || piece == [DOT] then []
    else if piece == [DOT, DOT] then [ParentDir]
    else [Normal(piece)]
  }

  function FirstSep(p: Bytes): (k: nat)
    ensures k <= |p| && (k < |p| ==> p[k] == SEP)
    ensures forall j :: 0 <= j < k ==> p[j] != SEP
  {
    if p == [] || p[0] == SEP then 0 else 1 + FirstSep(p[1..])
  }

  /** One more than the index of the last separator, 0 when there is none. */
  function AfterLastSep(p: Bytes): (k: nat)
    ensures k <= |p| && (k > 0 ==> p[k - 1] == SEP)
    ensures forall j :: k <= j < |p| ==> p[j] != SEP
  {
    if p == [] || p[|p| - 1] == SEP then |p| else AfterLastSep(p[..|p| - 1])
  }

  /** Split at every separator and keep what stands for a component. */
  function BodyComps(p: Bytes): seq<Component>
    decreases |p|
  {
    var k := FirstSep(p);
    if k == |p| then Single(p) else Single(p[..k]) + BodyComps(p[k + 1..])
  }

  predicate IsAbsolute(p: Bytes) {
    p != [] && p[0] == SEP
  }

  predicate LeadingDot(p: Bytes) {
    p != [] && p[0] == DOT && (|p| == 1 || p[1] == SEP)
  }

  /** The meaning of a path. */
  function Comps(p: Bytes): seq<Component> {
    if IsAbsolute(p) then [RootDir] + BodyComps(p[1..])
    else if LeadingDot(p) then [CurDir] + BodyComps(p[1..])
    else BodyComps(p)
  }

  // ---------------------------------------------------------------- facts about splitting

  lemma FirstSepIs(p: Bytes, k: nat)
    requires k <= |p| && (k < |p| ==> p[k] == SEP)
    requires forall j :: 0 <= j < k ==> p[j] != SEP
    ensures FirstSep(p) == k
  {
  }

  /** Splitting distributes over a separator. */
  lemma {:induction false} BodyJoin(a: Bytes, b: Bytes)
    ensures BodyComps(a + [SEP] + b) == BodyComps(a) + BodyComps(b)
    decreases |a|
  {
    hide FirstSep, Single;
    var p := a + [SEP] + b;
    var k := FirstSep(a);
    FirstSepIs(p, k);
    if k == |a| {
      assert p[..k] == a && p[k + 1..] == b;
    } else {
      assert p[..k] == a[..k];
      assert p[k + 1..] == a[k + 1..] + [SEP] + b;
      BodyJoin(a[k + 1..], b);
    }
  }

  /** Reading the last piece off the right end. */
  lemma BodyFromBack(p: Bytes)
    ensures var k := AfterLastSep(p);
            BodyComps(p) == (if k == 0 then [] else BodyComps(p[..k - 1])) + Single(p[k..])
    ensures BodyComps([]) == []
  {
    hide AfterLastSep;
    var k := AfterLastSep(p);
    FirstSepIs(p[k..], |p| - k);
    if k == 0 {
      assert p[k..] == p;
    } else {
      assert p == p[..k - 1] + [SEP] + p[k..];
      BodyJoin(p[..k - 1], p[k..]);
    }
  }

  lemma OnlyEmptyHasNoComps(p: Bytes)
    ensures Comps(p) == [] <==> p == []
  {
    if p != [] && !IsAbsolute(p) && !LeadingDot(p) {
      var k := FirstSep(p);
      assert p == p[..|p|];
    }
  }

  // ---------------------------------------------------------------- the iterator state

  /** A snapshot of the iterator's fields. */
  datatype Cursor = Cursor(path: Bytes, root: bool, front: State, back: State)
  {
    predicate IncludeCurDir() {
      !root && LeadingDot(path)
    }

    function LenBeforeBody(): nat {
      (if front.Rank() <= 1 && root then 1 else 0)
      + (if front.Rank() <= 1 && IncludeCurDir() then 1 else 0)
    }

    predicate Finished() {
      front == Done || back == Done || front.Rank() > back.Rank()
    }

    /** What every reachable iterator state satisfies. */
    predicate Valid() {
      && (front.Rank() <= 1 && root && back.Rank() >= 1 && back != Done ==> IsAbsolute(path))
      && (front.Rank() <= 1 && !root ==> !IsAbsolute(path))
      && (front.Rank() <= 1 && back == StartDir ==> |path| == LenBeforeBody())
      && (front == Done || back == Prefix || back == Done ==> path == [])
      && (front == Body && back == StartDir ==> path == [])
    }

    function Lead(): seq<Component> {
      if root then [RootDir] else if IncludeCurDir() then [CurDir] else []
    }

    /** The components this iterator has not produced yet, front to back. */
    function Rem(): seq<Component>
      requires Valid()
    {
      if Finished() || back == Prefix then []
      else if front == Body then BodyComps(path)
      else Lead() + BodyComps(path[LenBeforeBody()..])
    }
  }

  function Start(p: Bytes): Cursor {
    Cursor(p, IsAbsolute(p), Prefix, State.Body)
  }

  lemma StartIsWhole(p: Bytes)
    ensures Start(p).Valid() && Start(p).Rem() == Comps(p)
  {
    assert p[0..] == p;
  }

  /** What a call of `next` that went from `c` to `d` and returned `r` may do. */
  predicate FrontStep(c: Cursor, r: Option<Component>, d: Cursor) {
    && c.Valid() && d.Valid()
    && d.root == c.root && d.back == c.back
    && match r
       case Some(x) => c.Rem() == [x] + d.Rem() && d.front == Body
       case None => c.Rem() == [] && d.Rem() == []
  }

  predicate BackStep(c: Cursor, r: Option<Component>, d: Cursor) {
    && c.Valid() && d.Valid()
    && d.root == c.root && d.front == c.front
    && match r
       case Some(x) => c.Rem() == d.Rem() + [x]
       case None => c.Rem() == [] && d.Rem() == []
  }

  /** Where the last piece begins to be cut off, and the piece itself. */
  function CutAt(c: Cursor): (cut: nat)
    requires |c.path| > c.LenBeforeBody()
    ensures c.LenBeforeBody() <= cut < |c.path|
  {
    var start := c.LenBeforeBody();
    var k := AfterLastSep(c.path[start..]);
    if k == 0 then start else start + k - 1
  }

  function LastPiece(c: Cursor): Bytes
    requires |c.path| > c.LenBeforeBody()
  {
    var start := c.LenBeforeBody();
    c.path[start + AfterLastSep(c.path[start..])..]
  }

  lemma CutBody(p: Bytes, start: nat, cut: nat)
    requires start < |p|
    requires var k := AfterLastSep(p[start..]); cut == if k == 0 then start else start + k - 1
    ensures BodyComps(p[start..])
         == BodyComps(p[..cut][start..]) + Single(p[start + AfterLastSep(p[start..])..])
  {
    hide BodyComps, Single, AfterLastSep;
    var body := p[start..];
    var k := AfterLastSep(body);
    BodyFromBack(body);
    if k > 0 {
      assert p[..cut][start..] == body[..k - 1];
    } else {
      assert p[..cut][start..] == [];
    }
    assert body[k..] == p[start + k..];
  }

  /** Cutting the last piece off takes exactly its component away. */
  lemma CutBack(c: Cursor)
    requires c.Valid() && !c.Finished() && c.back == State.Body && |c.path| > c.LenBeforeBody()
    ensures var d := c.(path := c.path[..CutAt(c)]);
            && d.Valid() && d.LenBeforeBody() == c.LenBeforeBody()
            && c.Rem() == d.Rem() + Single(LastPiece(c))
  {
    if c.front == State.Body {
      CutBackInBody(c);
    } else {
      CutBackBefore(c);
    }
  }

  lemma CutBackInBody(c: Cursor)
    requires c.Valid() && !c.Finished() && c.back == State.Body && |c.path| > c.LenBeforeBody() && c.front == State.Body
    ensures var d := c.(path := c.path[..CutAt(c)]);
            && d.Valid() && d.LenBeforeBody() == c.LenBeforeBody()
            && c.Rem() == d.Rem() + Single(LastPiece(c))
  {
    hide BodyComps, Single, AfterLastSep;
    var start, cut := c.LenBeforeBody(), CutAt(c);
    var d := c.(path := c.path[..cut]);
    CutBody(c.path, start, cut);
    assert c.path[start..] == c.path && d.path[start..] == d.path;
  }

  lemma CutBackBefore(c: Cursor)
    requires c.Valid() && !c.Finished() && c.back == State.Body && |c.path| > c.LenBeforeBody() && c.front != State.Body
    ensures var d := c.(path := c.path[..CutAt(c)]);
            && d.Valid() && d.LenBeforeBody() == c.LenBeforeBody()
            && c.Rem() == d.Rem() + Single(LastPiece(c))
  {
    hide BodyComps, Single, AfterLastSep, Cursor.Rem, Cursor.Valid, Cursor.Lead, Cursor.LenBeforeBody, LastPiece;
    var start, cut := c.LenBeforeBody(), CutAt(c);
    var d := c.(path := c.path[..cut]);
    LastPieceIs(c);
    CutBody(c.path, start, cut);
    FrontIsOpen(c);
    LeadKept(c, d);
    RemBefore(c);
    RemBefore(d);
  }

  lemma LastPieceIs(c: Cursor)
    requires |c.path| > c.LenBeforeBody()
    ensures LastPiece(c) == c.path[c.LenBeforeBody() + AfterLastSep(c.path[c.LenBeforeBody()..])..]
  {
  }

  lemma FrontIsOpen(c: Cursor)
    requires !c.Finished() && c.back == State.Body && c.front != State.Body
    ensures c.front.Rank() <= 1
  {
  }

  lemma RemBefore(c: Cursor)
    requires c.Valid() && c.front.Rank() <= 1 && c.back == State.Body && |c.path| >= c.LenBeforeBody()
    ensures c.Rem() == c.Lead() + BodyComps(c.path[c.LenBeforeBody()..])
  {
    hide BodyComps;
  }

  lemma LeadKept(c: Cursor, d: Cursor)
    requires c.Valid() && !c.Finished() && c.back == State.Body && |c.path| > c.LenBeforeBody()
    requires c.front.Rank() <= 1
    requires d == c.(path := c.path[..CutAt(c)])
    ensures d.Valid() && d.LenBeforeBody() == c.LenBeforeBody() && d.Lead() == c.Lead()
  {
    var start, cut := c.LenBeforeBody(), CutAt(c);
    assert cut == start || c.path[cut] == SEP;
  }

  // One lemma per transition of the two loops.

  lemma FrontPrefix(c: Cursor)
    requires c.Valid() && !c.Finished() && c.front == Prefix
    ensures var d := c.(front := StartDir); d.Valid() && d.Rem() == c.Rem()
  {
  }

  lemma FrontStartDir(c: Cursor)
    requires c.Valid() && !c.Finished() && c.front == StartDir
    ensures var d := c.(front := State.Body);
            if c.root || c.IncludeCurDir() then
              var e := d.(path := c.path[1..]);
              && c.path != [] && e.Valid()
              && c.Rem() == [if c.root then RootDir else CurDir] + e.Rem()
            else d.Valid() && d.Rem() == c.Rem()
  {
    assert c.path[0..] == c.path;
  }

  lemma FrontPiece(c: Cursor, size: nat)
    requires c.Valid() && !c.Finished() && c.front == State.Body && size <= |c.path|
    ensures var d := c.(path := c.path[size..]); d.Valid() && d.Rem() == BodyComps(d.path)
    ensures c.Rem() == BodyComps(c.path)
  {
  }

  lemma FrontEnd(c: Cursor)
    requires c.Valid() && !c.Finished() && c.front == State.Body && c.path == []
    ensures var d := c.(front := Done); d.Valid() && d.Rem() == c.Rem()
  {
  }

  lemma BackBodyEnd(c: Cursor)
    requires c.Valid() && !c.Finished() && c.back == State.Body && |c.path| <= c.LenBeforeBody()
    ensures var d := c.(back := StartDir); d.Valid() && d.Rem() == c.Rem()
  {
    assert c.path[c.LenBeforeBody()..] == [];
  }

  lemma BackStartDir(c: Cursor)
    requires c.Valid() && !c.Finished() && c.back == StartDir
    ensures var d := c.(back := Prefix);
            if c.root || c.IncludeCurDir() then
              && c.path != []
              && var e := d.(path := c.path[..|c.path| - 1]);
              && e.Valid()
              && c.Rem() == e.Rem() + [if c.root then RootDir else CurDir]
            else d.Valid() && d.Rem() == c.Rem()
  {
    assert c.path[c.LenBeforeBody()..] == [];
  }

  lemma OpenBack(c: Cursor)
    requires !c.Finished()
    ensures c.back != Done
  {
  }

  lemma DoneOwesNothing(c: Cursor)
    requires c.Valid() && (c.Finished() || c.back == Prefix)
    ensures c.Rem() == [] && c.(back := Done).Valid() && c.(back := Done).Rem() == []
  {
  }

  lemma NonEmptyIsOpen(c: Cursor)
    requires c.Valid() && c.back == State.Body && c.path != []
    ensures !c.Finished()
  {
  }

  lemma CutMakesNoDot(c: Cursor)
    requires |c.path| > c.LenBeforeBody() && c.front == State.Body && !LeadingDot(c.path)
    ensures !LeadingDot(c.path[..CutAt(c)])
  {
  }

  /** A trimmed iterator's remaining bytes, read as a fresh path, mean what it still owes. */
  lemma TrimmedIsWhole(c: Cursor)
    requires c.Valid()
    requires c.front == State.Body ==> !IsAbsolute(c.path) && !LeadingDot(c.path)
    ensures Comps(c.path) == c.Rem()
  {
    assert c.path[0..] == c.path;
  }

  /** Cutting off a piece that is no component. */
  lemma CutEmpty(c: Cursor)
    requires c.Valid() && c.back == State.Body && |c.path| > c.LenBeforeBody() && Single(LastPiece(c)) == []
    ensures var d := c.(path := c.path[..CutAt(c)]);
            && d.Valid() && d.Rem() == c.Rem() && |d.path| < |c.path| && d.path <= c.path
            && (c.front == State.Body && !LeadingDot(c.path) ==> !LeadingDot(d.path))
  {
    hide Cursor.Rem, Cursor.Valid, Cursor.LenBeforeBody, Single, BodyComps, LeadingDot;
    NonEmptyIsOpen(c);
    CutBack(c);
    if c.front == State.Body && !LeadingDot(c.path) {
      CutMakesNoDot(c);
    }
  }

  /** The iterator of the library. */
  class Components {
    var path: Bytes
    var hasPhysicalRoot: bool
    var front: State
    var back: State

    ghost function View(): Cursor
      reads this
    {
      Cursor(path, hasPhysicalRoot, front, back)
    }

    constructor (p: Bytes)
      ensures View() == Start(p) && View().Valid() && View().Rem() == Comps(p)
    {
      path := p;
      hasPhysicalRoot := p != [] && p[0] == SEP;
      front := Prefix;
      back := State.Body;
      new;
      StartIsWhole(p);
    }

    constructor Clone(other: Components)
      ensures View() == other.View()
    {
      path := other.path;
      hasPhysicalRoot := other.hasPhysicalRoot;
      front := other.front;
      back := other.back;
    }

    predicate Finished()
      reads this
      ensures Finished() == View().Finished()
    {
      front == Done || back == Done || front.Rank() > back.Rank()
    }

    predicate IncludeCurDir()
      reads this
      ensures IncludeCurDir() == View().IncludeCurDir()
    {
      !hasPhysicalRoot && |path| > 0 && path[0] == DOT && (|path| == 1 || path[1] == SEP)
    }

    function LenBeforeBody(): (n: nat)
      reads this
      ensures n == View().LenBeforeBody()
    {
      (if front.Rank() <= 1 && hasPhysicalRoot then 1 else 0)
      + (if front.Rank() <= 1 && IncludeCurDir() then 1 else 0)
    }

    static function ParseSingleComponent(comp: Bytes): (r: Option<Component>)
      ensures Single(comp) == if r.Some? then [r.value] else []
    {
      if comp == [DOT] then None
      else if comp == [DOT, DOT] then Some(ParentDir)
      else if comp == [] then None
      else Some(Normal(comp))
    }

    /** How many bytes the next piece takes, and the component it stands for. */
    function ParseNextComponent(): (r: (nat, Option<Component>))
      requires path != []
      reads this
      ensures 0 < r.0 <= |path|
      ensures BodyComps(path)
           == (if r.1.Some? then [r.1.value] else []) + BodyComps(path[r.0..])
    {
      var k := FirstSep(path);
      var extra := if k == |path| then 0 else 1;
      assert k == |path| ==> path[..k] == path && path[k..] == [];
      (k + extra, ParseSingleComponent(path[..k]))
    }

    function ParseNextComponentBack(): (r: (nat, Option<Component>))
      requires |path| > LenBeforeBody()
      reads this
      ensures r.0 == |path| - CutAt(View())
      ensures Single(LastPiece(View())) == if r.1.Some? then [r.1.value] else []
    {
      var start := LenBeforeBody();
      var k := AfterLastSep(path[start..]);
      var extra := if k == 0 then 0 else 1;
      var comp := path[start + k..];
      (|comp| + extra, ParseSingleComponent(comp))
    }

    method TrimLeft()
      requires View().Valid() && front == State.Body
      modifies this`path
      ensures View().Valid() && View().Rem() == old(View().Rem())
      ensures !IsAbsolute(path) && !LeadingDot(path)
    {
      while path != []
        invariant View().Valid() && View().Rem() == old(View().Rem())
        decreases |path|
      {
        var (size, comp) := ParseNextComponent();
        if comp.Some? {
          return;
        }
        path := path[size..];
      }
    }

    method TrimRight()
      requires View().Valid() && back == State.Body
      modifies this`path
      ensures View().Valid() && View().Rem() == old(View().Rem())
      ensures path <= old(path)
      ensures front == State.Body && !LeadingDot(old(path)) ==> !LeadingDot(path)
    {
      hide Cursor.Rem, Cursor.Valid, Cursor.LenBeforeBody, LenBeforeBody, Single, BodyComps, CutAt, LeadingDot;
      while |path| > LenBeforeBody()
        invariant View().Valid() && View().Rem() == old(View().Rem())
        invariant path <= old(path)
        invariant front == State.Body && !LeadingDot(old(path)) ==> !LeadingDot(path)
        decreases |path|
      {
        var (size, comp) := ParseNextComponentBack();
        if comp.Some? {
          return;
        }
        CutEmpty(View());
        path := path[..|path| - size];
      }
    }

    /** The path left to iterate, as a path of its own. */
    method AsPath() returns (r: Bytes)
      requires View().Valid()
      ensures Comps(r) == View().Rem()
      ensures front == State.Body ==> !IsAbsolute(r) && !LeadingDot(r)
    {
      hide Cursor.Rem, Cursor.Valid, Cursor.LenBeforeBody, BodyComps, Comps;
      var comps := new Components.Clone(this);
      if comps.front == State.Body {
        comps.TrimLeft();
      }
      if comps.back == State.Body {
        comps.TrimRight();
      }
      r := comps.path;
      TrimmedIsWhole(comps.View());
    }

    method Next() returns (r: Option<Component>)
      requires View().Valid()
      modifies this
      ensures FrontStep(old(View()), r, View())
    {
      hide Cursor.Rem, Cursor.Valid, BodyComps;
      while !Finished()
        invariant View().Valid() && View().Rem() == old(View().Rem())
        invariant hasPhysicalRoot == old(hasPhysicalRoot) && back == old(back)
        decreases 3 - front.Rank(), |path|
      {
        match front {
          case Prefix =>
            FrontPrefix(View());
            front := StartDir;
          case StartDir =>
            FrontStartDir(View());
            front := State.Body;
            if hasPhysicalRoot {
              path := path[1..];
              return Some(RootDir);
            } else if IncludeCurDir() {
              path := path[1..];
              return Some(CurDir);
            }
          case Body =>
            if path != [] {
              var (size, comp) := ParseNextComponent();
              FrontPiece(View(), size);
              path := path[size..];
              if comp.Some? {
                return comp;
              }
            } else {
              FrontEnd(View());
              front := Done;
            }
        }
      }
      DoneOwesNothing(View());
      return None;
    }

    method NextBack() returns (r: Option<Component>)
      requires View().Valid()
      modifies this
      ensures BackStep(old(View()), r, View())
    {
      hide Cursor.Rem, Cursor.Valid, Cursor.LenBeforeBody, LenBeforeBody, Cursor.Lead, Finished, Cursor.Finished;
      hide BodyComps, Single, CutAt, LastPiece, LeadingDot;
      while !Finished()
        invariant View().Valid() && View().Rem() == old(View().Rem())
        invariant hasPhysicalRoot == old(hasPhysicalRoot) && front == old(front)
        decreases if back == Done then 0 else 1 + back.Rank(), |path|
      {
        OpenBack(View());
        match back {
          case Body =>
            if |path| > LenBeforeBody() {
              var (size, comp) := ParseNextComponentBack();
              CutBack(View());
              path := path[..|path| - size];
              if comp.Some? {
                return comp;
              }
            } else {
              BackBodyEnd(View());
              back := StartDir;
            }
          case StartDir =>
            BackStartDir(View());
            back := Prefix;
            if hasPhysicalRoot {
              path := path[..|path| - 1];
              return Some(RootDir);
            } else if IncludeCurDir() {
              path := path[..|path| - 1];
              return Some(CurDir);
            }
          case Prefix =>
            DoneOwesNothing(View());
            back := Done;
            return None;
        }
      }
      DoneOwesNothing(View());
      return None;
    }
  }

  // ---------------------------------------------------------------- any interleaving of the two ends

  datatype Pull = Front(result: Option<Component>) | Back(result: Option<Component>)

  /** What the front calls produced, in order. */
  function FrontResults(pulls: seq<Pull>): seq<Component> {
    if pulls == [] then []
    else
      var e := pulls[|pulls| - 1];
      FrontResults(pulls[..|pulls| - 1]) + (if e.Front? && e.result.Some? then [e.result.value] else [])
  }

  /** What the back calls produced, last one first. */
  function BackResultsReversed(pulls: seq<Pull>): seq<Component> {
    if pulls == [] then []
    else
      var e := pulls[|pulls| - 1];
      (if e.Back? && e.result.Some? then [e.result.value] else []) + BackResultsReversed(pulls[..|pulls| - 1])
  }

  predicate PullStep(c: Cursor, e: Pull, d: Cursor) {
    if e.Front? then FrontStep(c, e.result, d) else BackStep(c, e.result, d)
  }

  /** `states` are the iterator's states before, between and after the calls `pulls`. */
  predicate IsTrace(states: seq<Cursor>, pulls: seq<Pull>) {
    && |states| == |pulls| + 1
    && forall k :: 0 <= k < |pulls| ==> PullStep(states[k], pulls[k], states[k + 1])
  }

  lemma OnePull(front: seq<Component>, c: Cursor, e: Pull, d: Cursor, back: seq<Component>)
    requires PullStep(c, e, d)
    ensures c.Valid() && d.Valid()
    ensures var x := if e.result.Some? then [e.result.value] else [];
            var f := if e.Front? then front + x else front;
            var b := if e.Back? then x + back else back;
            front + c.Rem() + back == f + d.Rem() + b
    ensures e.result.None? ==> d.Rem() == []
  {
    hide Cursor.Rem, Cursor.Valid;
  }

  lemma NoResults(pulls: seq<Pull>)
    requires pulls == []
    ensures FrontResults(pulls) == [] && BackResultsReversed(pulls) == []
  {
  }

  lemma OneMoreResult(pulls: seq<Pull>)
    requires pulls != []
    ensures var n, e := |pulls| - 1, pulls[|pulls| - 1];
            var x := if e.result.Some? then [e.result.value] else [];
            && FrontResults(pulls) == (if e.Front? then FrontResults(pulls[..n]) + x else FrontResults(pulls[..n]))
            && BackResultsReversed(pulls)
               == (if e.Back? then x + BackResultsReversed(pulls[..n]) else BackResultsReversed(pulls[..n]))
  {
  }

  /** However calls of `next` and `next_back` are interleaved, nothing is lost, repeated or reordered. */
  lemma {:induction false} Interleaving(p: Bytes, states: seq<Cursor>, pulls: seq<Pull>)
    requires IsTrace(states, pulls) && states[0] == Start(p)
    ensures states[|pulls|].Valid()
    ensures FrontResults(pulls) + states[|pulls|].Rem() + BackResultsReversed(pulls) == Comps(p)
    decreases |pulls|
  {
    hide Cursor.Rem, Cursor.Valid, Cursor.Finished, Comps, PullStep, FrontStep, BackStep;
    hide FrontResults, BackResultsReversed;
    if pulls == [] {
      NoResults(pulls);
      StartIsWhole(p);
    } else {
      var n := |pulls| - 1;
      Interleaving(p, states[..n + 1], pulls[..n]);
      OnePull(FrontResults(pulls[..n]), states[n], pulls[n], states[n + 1], BackResultsReversed(pulls[..n]));
      OneMoreResult(pulls);
    }
  }

  /** Once either end has reported the end, the results are the component list. */
  lemma Exhausted(p: Bytes, states: seq<Cursor>, pulls: seq<Pull>)
    requires IsTrace(states, pulls) && states[0] == Start(p)
    requires pulls != [] && pulls[|pulls| - 1].result.None?
    ensures FrontResults(pulls) + BackResultsReversed(pulls) == Comps(p)
  {
    hide Cursor.Rem, Cursor.Valid, Comps, PullStep, FrontResults, BackResultsReversed;
    Interleaving(p, states, pulls);
    var n := |pulls| - 1;
    OnePull([], states[n], pulls[n], states[n + 1], []);
    assert FrontResults(pulls) + [] == FrontResults(pulls);
  }

  // ---------------------------------------------------------------- stripping and joining

  /** `Path::join`: an absolute second path replaces the first. */
  function Join(b: Bytes, r: Bytes): Bytes {
    if IsAbsolute(r) then r
    else if b != [] && b[|b| - 1] != SEP then b + [SEP] + r
    else b + r
  }

  class PathBuf {
    var inner: Bytes

    constructor (p: Bytes)
      ensures inner == p
    {
      inner := p;
    }

    method Push(path: Bytes)
      modifies this
      ensures inner == Join(old(inner), path)
    {
      var needSep := if inner == [] then false else inner[|inner| - 1] != SEP;
      if path != [] && path[0] == SEP {
        inner := [];
      } else if needSep {
        inner := inner + [SEP];
      }
      inner := inner + path;
    }
  }

  lemma CompsBeforeSep(b: Bytes, r: Bytes)
    requires b != []
    ensures Comps(b + [SEP] + r) == Comps(b) + BodyComps(r)
  {
    hide BodyComps;
    var j := b + [SEP] + r;
    assert LeadingDot(j) <==> LeadingDot(b);
    assert j[1..] == b[1..] + [SEP] + r;
    BodyJoin(b[1..], r);
    BodyJoin(b, r);
  }

  /** Joining appends the body components of a relative path (its leading `.` is dropped); an absolute
      path, or an empty base, leaves the path itself. */
  lemma JoinComps(b: Bytes, r: Bytes)
    ensures Comps(Join(b, r)) == if b == [] || IsAbsolute(r) then Comps(r) else Comps(b) + BodyComps(r)
  {
    hide Comps, BodyComps;
    if b == [] || IsAbsolute(r) {
      assert Join(b, r) == r;
    } else if b[|b| - 1] != SEP {
      CompsBeforeSep(b, r);
    } else {
      var b0 := b[..|b| - 1];
      assert b == b0 + [SEP] + [];
      assert b + r == b0 + [SEP] + r;
      BodyFromBack([]);
      if b0 == [] {
        assert b + r == [SEP] + r && b == [SEP] + [];
        CompsAfterRoot(r);
        CompsAfterRoot([]);
      } else {
        CompsBeforeSep(b0, r);
        CompsBeforeSep(b0, []);
      }
    }
  }

  lemma CompsAfterRoot(r: Bytes)
    ensures Comps([SEP] + r) == [RootDir] + BodyComps(r)
  {
    assert ([SEP] + r)[1..] == r;
  }

  /** `taken` of both lists of components is gone; the rest is what the iterators owe. */
  predicate Agreed(whole: seq<Component>, start: seq<Component>, taken: seq<Component>, c: Cursor, e: Cursor) {
    && c.Valid() && e.Valid()
    && whole == taken + c.Rem() && start == taken + e.Rem()
    && (start <= whole <==> e.Rem() <= c.Rem())
  }

  /** What one pull from each says about the one list beginning with the other. */
  lemma PullsAgree(whole: seq<Component>, start: seq<Component>, taken: seq<Component>,
                   c: Cursor, x: Option<Component>, d: Cursor, e: Cursor, y: Option<Component>, f: Cursor)
    requires Agreed(whole, start, taken, c, e) && FrontStep(c, x, d) && FrontStep(e, y, f)
    ensures y.None? ==> start == taken && start <= whole
    ensures y.Some? ==> |taken| < |start|
    ensures y.Some? && x != y ==> !(start <= whole)
    ensures y.Some? && x == y ==> Agreed(whole, start, taken + [y.value], d, f) && d.front == State.Body
  {
    hide Cursor.Rem, Cursor.Valid;
    if y.Some? && x.Some? {
      HeadsAgree(x.value, d.Rem(), y.value, f.Rem());
    }
  }

  lemma HeadsAgree(x: Component, q: seq<Component>, y: Component, p: seq<Component>)
    ensures [y] + p <= [x] + q <==> x == y && p <= q
  {
    var s, t := [y] + p, [x] + q;
    assert s[0] == y && t[0] == x && s[1..] == p && t[1..] == q;
    if s <= t {
      assert t[..|s|][1..] == q[..|p|];
    }
    if x == y && p <= q {
      assert t == s + q[|p|..];
    }
  }

  /** One `next` of a copy of `iter` and one of `prefix`. */
  method PullBoth(iter: Components, prefix: Components)
    returns (next: Components, x: Option<Component>, y: Option<Component>)
    requires iter.View().Valid() && prefix.View().Valid() && iter != prefix
    modifies prefix
    ensures fresh(next) && iter.View() == old(iter.View())
    ensures FrontStep(iter.View(), x, next.View()) && FrontStep(old(prefix.View()), y, prefix.View())
  {
    hide Cursor.Rem, Cursor.Valid, FrontStep;
    next := new Components.Clone(iter);
    x := next.Next();
    y := prefix.Next();
  }

  /** Advance past `prefix`, as long as the components agree. */
  method IterAfter(first: Components, prefix: Components) returns (r: Option<Components>)
    requires first.View().Valid() && prefix.View().Valid() && first != prefix
    modifies prefix
    ensures r.Some? <==> old(prefix.View().Rem()) <= first.View().Rem()
    ensures r.Some? ==>
              && r.value.View().Valid()
              && first.View().Rem() == old(prefix.View().Rem()) + r.value.View().Rem()
              && (old(prefix.View().Rem()) == [] ==> r.value == first)
              && (old(prefix.View().Rem()) != [] ==> r.value.front == State.Body)
  {
    hide Cursor.Rem, Cursor.Valid, FrontStep, Agreed;
    var iter := first;
    ghost var taken: seq<Component> := [];
    ghost var whole, start := first.View().Rem(), prefix.View().Rem();
    AgreedFirst(first.View(), prefix.View());
    while true
      invariant iter != prefix && Agreed(whole, start, taken, iter.View(), prefix.View())
      invariant first.View() == old(first.View())
      invariant if taken == [] then iter == first else iter.front == State.Body && fresh(iter)
      decreases |start| - |taken|
    {
      AgreedValid(whole, start, taken, iter.View(), prefix.View());
      ghost var was := prefix.View();
      var iterNext, x, y := PullBoth(iter, prefix);
      PullsAgree(whole, start, taken, iter.View(), x, iterNext.View(), was, y, prefix.View());
      match (x, y) {
        case (Some(a), Some(b)) =>
          if a != b {
            return None;
          }
          taken := taken + [a];
        case (_, None) =>
          return Some(iter);
        case (None, Some(_)) =>
          return None;
      }
      iter := iterNext;
    }
  }

  lemma AgreedFirst(c: Cursor, e: Cursor)
    requires c.Valid() && e.Valid()
    ensures Agreed(c.Rem(), e.Rem(), [], c, e)
  {
    hide Cursor.Rem, Cursor.Valid;
  }

  lemma AgreedValid(whole: seq<Component>, start: seq<Component>, taken: seq<Component>, c: Cursor, e: Cursor)
    requires Agreed(whole, start, taken, c, e)
    ensures c.Valid() && e.Valid() && whole == taken + c.Rem()
  {
  }

  /** Stripping a prefix succeeds exactly on component prefixes, and joining undoes it. */
  method StripPrefix(path: Bytes, base: Bytes) returns (r: Option<Bytes>)
    ensures r.Some? <==> Comps(base) <= Comps(path)
    ensures r.Some? ==> Comps(path) == Comps(base) + Comps(r.value)
    ensures r.Some? ==> Comps(Join(base, r.value)) == Comps(path)
  {
    hide Cursor.Rem, Cursor.Valid, Comps;
    var comps := new Components(path);
    var prefix := new Components(base);
    var after := IterAfter(comps, prefix);
    if after.None? {
      return None;
    }
    var rest := after.value.AsPath();
    r := Some(rest);
    StrippedJoins(path, base, rest);
  }

  lemma StrippedJoins(path: Bytes, base: Bytes, rest: Bytes)
    requires Comps(path) == Comps(base) + Comps(rest)
    requires Comps(base) != [] ==> !IsAbsolute(rest) && !LeadingDot(rest)
    ensures Comps(Join(base, rest)) == Comps(path)
  {
    OnlyEmptyHasNoComps(base);
    if base != [] {
      JoinComps(base, rest);
    } else {
      assert Join(base, rest) == rest;
    }
  }

  /** The path without its last component. */
  method Parent(path: Bytes) returns (r: Option<Bytes>)
    ensures r.Some? <==> Comps(path) != [] && Comps(path)[|Comps(path)| - 1] != RootDir
    ensures r.Some? ==> Comps(r.value) == Comps(path)[..|Comps(path)| - 1]
  {
    hide Cursor.Rem, Cursor.Valid, Comps;
    var comps := new Components(path);
    var comp := comps.NextBack();
    match comp {
      case None =>
        return None;
      case Some(c) =>
        if c == RootDir {
          return None;
        }
        var p := comps.AsPath();
        return Some(p);
    }
  }

  /** The last component, when it is a normal one. */
  method FileName(path: Bytes) returns (r: Option<Bytes>)
    ensures r.Some? <==> Comps(path) != [] && Comps(path)[|Comps(path)| - 1].Normal?
    ensures r.Some? ==> Comps(path)[|Comps(path)| - 1] == Normal(r.value)
  {
    hide Cursor.Rem, Cursor.Valid, Comps;
    var comps := new Components(path);
    var comp := comps.NextBack();
    match comp {
      case Some(Normal(n)) =>
        return Some(n);
      case _ =>
        return None;
    }
  }

  /** Every name among the components of a path is a single piece of it. */
  lemma {:induction false} NamesArePieces(p: Bytes, k: nat)
    requires k < |BodyComps(p)| && BodyComps(p)[k].Normal?
    ensures var n := BodyComps(p)[k].name; SEP !in n && Single(n) == [Normal(n)]
    decreases |p|
  {
    var i := FirstSep(p);
    if i < |p| && k >= |Single(p[..i])| {
      NamesArePieces(p[i + 1..], k - |Single(p[..i])|);
    }
  }

  lemma NameIsPlain(path: Bytes, name: Bytes)
    requires Comps(path) != [] && Comps(path)[|Comps(path)| - 1] == Normal(name)
    ensures SEP !in name && Single(name) == [Normal(name)]
  {
    hide BodyComps, Single;
    var rest := if IsAbsolute(path) || LeadingDot(path) then path[1..] else path;
    var body := BodyComps(rest);
    assert Comps(path)[|Comps(path)| - 1] == body[|body| - 1];
    NamesArePieces(rest, |body| - 1);
  }

  lemma PlainNameAlone(name: Bytes)
    requires SEP !in name && Single(name) == [Normal(name)]
    ensures !IsAbsolute(name) && BodyComps(name) == Comps(name) == [Normal(name)]
  {
    FirstSepIs(name, |name|);
    assert name[..|name|] == name;
  }

  /** A path with a file name is its parent joined with that name. */
  lemma ParentJoinsFileName(path: Bytes, parent: Bytes, name: Bytes)
    requires Comps(path) != [] && Comps(path)[|Comps(path)| - 1] == Normal(name)
    requires Comps(parent) == Comps(path)[..|Comps(path)| - 1]
    ensures Comps(Join(parent, name)) == Comps(path)
  {
    hide BodyComps, Comps, Single;
    NameIsPlain(path, name);
    PlainNameAlone(name);
    OnlyEmptyHasNoComps(parent);
    if parent != [] {
      JoinComps(parent, name);
    } else {
      assert Join(parent, name) == name;
    }
  }
}
