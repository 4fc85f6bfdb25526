/** The line pass of a frame: for each particle in array order, a line to every scanned
    partner closer than MaxLineDistance whose opacity exceeds MinLineOpacity, then a line
    to the cursor under the same two tests when the cursor is over the banner. Lines are
    produced as a list of segments instead of being stroked onto a canvas. */
module Lines {
  import opened Settings
  import opened Geometry
  import opened Particles
  import opened SpatialGrid
  import opened Neighbours

  /** A stroked line: between particles from and to, or from particle from to the cursor,
      with the opacity it is drawn at. */
  datatype Segment = Link(from: nat, to: nat, alpha: real) | CursorLink(from: nat, alpha: real)

  /** The cursor counts as over the banner when both coordinates exceed -InteractionRadius. */
  predicate MouseIsActive(mouseX: real, mouseY: real) {
    mouseX > -InteractionRadius && mouseY > -InteractionRadius
  }

  /** The opacity of a line of squared length d: 1 - fade(d), floored at 0, where fade(d)
      stands for (sqrt(d) / MaxLineDistance) raised to the line opacity factor. */
  function Opacity(d: real, fade: real -> real): real {
    Max(0.0, 1.0 - fade(d))
  }

  /** A line of squared length d is drawn: it is shorter than MaxLineDistance and its
      opacity exceeds MinLineOpacity. */
  predicate Visible(d: real, fade: real -> real) {
    d < MaxLineDistanceSq && Opacity(d, fade) > MinLineOpacity
  }

  /** Squared distance between particles i and j. */
  function LineDist(ps: seq<Particle>, i: nat, j: nat): real
    requires i < |ps| && j < |ps|
  {
    DistSq(ps[i].x - ps[j].x, ps[i].y - ps[j].y)
  }

  /** Squared distance between particle i and the cursor. */
  function CursorDist(ps: seq<Particle>, i: nat, mouseX: real, mouseY: real): real
    requires i < |ps|
  {
    DistSq(ps[i].x - mouseX, ps[i].y - mouseY)
  }

  /** The line from particle i to particle j, when it is drawn. */
  function LinkTo(ps: seq<Particle>, i: nat, j: nat, fade: real -> real): seq<Segment>
    requires i < |ps| && j < |ps|
  {
    if Visible(LineDist(ps, i, j), fade) then [Link(i, j, Opacity(LineDist(ps, i, j), fade))] else []
  }

  /** The lines from particle i to the partners js, in order. */
  function PairLinks(ps: seq<Particle>, i: nat, js: seq<nat>, fade: real -> real): (segs: seq<Segment>)
    requires i < |ps| && forall m :: 0 <= m < |js| ==> js[m] < |ps|
    ensures forall m :: 0 <= m < |segs| ==> segs[m].Link? && segs[m].from == i && segs[m].to in js
  {
    if js == [] then []
    else PairLinks(ps, i, js[..|js| - 1], fade) + LinkTo(ps, i, js[|js| - 1], fade)
  }

  /** The lines to js and then j are the lines to js + [j]. */
  lemma PairLinksSnoc(ps: seq<Particle>, i: nat, js: seq<nat>, j: nat, fade: real -> real)
    requires i < |ps| && j < |ps| && forall m :: 0 <= m < |js| ==> js[m] < |ps|
    ensures PairLinks(ps, i, js + [j], fade) == PairLinks(ps, i, js, fade) + LinkTo(ps, i, j, fade)
  {
    assert (js + [j])[..|js|] == js;
  }

  /** The lines to a + b are the lines to a followed by the lines to b. */
  lemma {:induction false} PairLinksConcat(ps: seq<Particle>, i: nat, a: seq<nat>, b: seq<nat>, fade: real -> real)
    requires i < |ps| && (forall m :: 0 <= m < |a| ==> a[m] < |ps|) && (forall m :: 0 <= m < |b| ==> b[m] < |ps|)
    ensures PairLinks(ps, i, a + b, fade) == PairLinks(ps, i, a, fade) + PairLinks(ps, i, b, fade)
    decreases |b|
  {
    if b != [] {
      var front, last := b[..|b| - 1], b[|b| - 1];
      assert b == front + [last];
      var af := a + front;
      assert a + b == af + [last];
      assert forall m :: 0 <= m < |af| ==> af[m] < |ps|;
      PairLinksConcat(ps, i, a, front, fade);
      PairLinksSnoc(ps, i, af, last, fade);
      PairLinksSnoc(ps, i, front, last, fade);
      Regroup(PairLinks(ps, i, a, fade), PairLinks(ps, i, front, fade), LinkTo(ps, i, last, fade),
        PairLinks(ps, i, af, fade), PairLinks(ps, i, a + b, fade), PairLinks(ps, i, b, fade));
    } else {
      assert a + b == a;
    }
  }

  lemma Regroup<T>(x: seq<T>, y: seq<T>, z: seq<T>, u: seq<T>, v: seq<T>, w: seq<T>)
    requires u == x + y && v == u + z && w == y + z
    ensures v == x + w
  {
  }

  /** The line from particle i to the cursor, when the cursor is over the banner and the
      line is drawn. */
  function CursorLinks(ps: seq<Particle>, i: nat, mouseX: real, mouseY: real, fade: real -> real): (segs: seq<Segment>)
    requires i < |ps|
    ensures |segs| <= 1
    ensures forall m :: 0 <= m < |segs| ==> segs[m].CursorLink? && segs[m].from == i && MouseIsActive(mouseX, mouseY)
    ensures MouseIsActive(mouseX, mouseY) && Visible(CursorDist(ps, i, mouseX, mouseY), fade) ==>
      segs == [CursorLink(i, Opacity(CursorDist(ps, i, mouseX, mouseY), fade))]
  {
    if MouseIsActive(mouseX, mouseY) && Visible(CursorDist(ps, i, mouseX, mouseY), fade)
    then [CursorLink(i, Opacity(CursorDist(ps, i, mouseX, mouseY), fade))]
    else []
  }

  /** The lines stroked for particle i: to its scanned partners, then to the cursor. */
  function ParticleLinks(ps: seq<Particle>, scans: seq<seq<nat>>, mouseX: real, mouseY: real, fade: real -> real, i: nat): (segs: seq<Segment>)
    requires i < |ps| == |scans| && ScansValid(scans, |ps|)
    ensures forall m :: 0 <= m < |segs| ==> segs[m].from == i && Placed(scans, mouseX, mouseY, segs[m])
  {
    PairLinks(ps, i, scans[i], fade) + CursorLinks(ps, i, mouseX, mouseY, fade)
  }

  /** The lines of the frame, block by block: block i holds the lines stroked for particle i. */
  function FrameBlocks(ps: seq<Particle>, scans: seq<seq<nat>>, mouseX: real, mouseY: real, fade: real -> real): (bs: seq<seq<Segment>>)
    requires |ps| == |scans| && ScansValid(scans, |ps|)
    ensures |bs| == |ps|
  {
    seq(|ps|, i requires 0 <= i < |ps| => ParticleLinks(ps, scans, mouseX, mouseY, fade, i))
  }

  /** The blocks joined in order. */
  function Flatten(bs: seq<seq<Segment>>): seq<Segment> {
    if bs == [] then [] else Flatten(bs[..|bs| - 1]) + bs[|bs| - 1]
  }

  /** All lines of the frame, in stroke order. */
  function FrameLinks(ps: seq<Particle>, scans: seq<seq<nat>>, mouseX: real, mouseY: real, fade: real -> real): seq<Segment>
    requires |ps| == |scans| && ScansValid(scans, |ps|)
  {
    Flatten(FrameBlocks(ps, scans, mouseX, mouseY, fade))
  }

  /** Joining one more block appends its lines. */
  lemma FlattenPrefix(bs: seq<seq<Segment>>, i: nat)
    requires i < |bs|
    ensures Flatten(bs[..i + 1]) == Flatten(bs[..i]) + bs[i]
  {
    assert bs[..i + 1][..i] == bs[..i];
  }

  /** A line is in the joined blocks exactly when it is in one of them. */
  lemma {:induction false} FlattenMember(bs: seq<seq<Segment>>, s: Segment)
    ensures s in Flatten(bs) <==> exists k :: 0 <= k < |bs| && s in bs[k]
  {
    if bs != [] {
      var front := bs[..|bs| - 1];
      FlattenMember(front, s);
      assert Flatten(bs) == Flatten(front) + bs[|bs| - 1];
      if s in Flatten(front) {
        var k :| 0 <= k < |front| && s in front[k];
        assert bs[k] == front[k];
      }
      if exists k :: 0 <= k < |bs| && s in bs[k] {
        var k :| 0 <= k < |bs| && s in bs[k];
        if k < |front| {
          assert front[k] == bs[k];
        }
      }
    }
  }

  /** Where s may come from: a particle line joins a particle to one of its scanned
      partners, and a cursor line exists only while the cursor is over the banner. */
  predicate Placed(scans: seq<seq<nat>>, mouseX: real, mouseY: real, s: Segment) {
    s.from < |scans| &&
    (s.Link? ==> s.to in scans[s.from]) &&
    (s.CursorLink? ==> MouseIsActive(mouseX, mouseY))
  }

  /** What s looks like: it passes the distance and opacity tests and is drawn at its
      opacity. */
  predicate Lit(ps: seq<Particle>, mouseX: real, mouseY: real, fade: real -> real, s: Segment) {
    match s
    case Link(i, j, a) =>
      i < |ps| && j < |ps| && Visible(LineDist(ps, i, j), fade) && a == Opacity(LineDist(ps, i, j), fade)
    case CursorLink(i, a) =>
      i < |ps| && Visible(CursorDist(ps, i, mouseX, mouseY), fade) && a == Opacity(CursorDist(ps, i, mouseX, mouseY), fade)
  }

  /** Every stroked line joins a particle to one of its scanned partners or, while the
      cursor is over the banner, to the cursor. */
  lemma FrameLinksPlaced(ps: seq<Particle>, scans: seq<seq<nat>>, mouseX: real, mouseY: real, fade: real -> real)
    requires |ps| == |scans| && ScansValid(scans, |ps|)
    ensures forall s :: s in FrameLinks(ps, scans, mouseX, mouseY, fade) ==> Placed(scans, mouseX, mouseY, s)
  {
    var bs := FrameBlocks(ps, scans, mouseX, mouseY, fade);
    forall s | s in Flatten(bs) ensures Placed(scans, mouseX, mouseY, s) {
      FlattenMember(bs, s);
      var k :| 0 <= k < |bs| && s in bs[k];
      assert bs[k] == ParticleLinks(ps, scans, mouseX, mouseY, fade, k);
    }
  }

  /** Every line of particle i passes the distance and opacity tests and carries its opacity. */
  lemma {:induction false} PairLinksLit(ps: seq<Particle>, i: nat, js: seq<nat>, mouseX: real, mouseY: real, fade: real -> real)
    requires i < |ps| && forall m :: 0 <= m < |js| ==> js[m] < |ps|
    ensures forall s :: s in PairLinks(ps, i, js, fade) ==> Lit(ps, mouseX, mouseY, fade, s)
  {
    if js != [] {
      var head := PairLinks(ps, i, js[..|js| - 1], fade);
      var tail := LinkTo(ps, i, js[|js| - 1], fade);
      PairLinksLit(ps, i, js[..|js| - 1], mouseX, mouseY, fade);
      assert PairLinks(ps, i, js, fade) == head + tail;
    }
  }

  /** Every stroked line passes the distance and opacity tests and is drawn at its opacity. */
  lemma FrameLinksLit(ps: seq<Particle>, scans: seq<seq<nat>>, mouseX: real, mouseY: real, fade: real -> real)
    requires |ps| == |scans| && ScansValid(scans, |ps|)
    ensures forall s :: s in FrameLinks(ps, scans, mouseX, mouseY, fade) ==> Lit(ps, mouseX, mouseY, fade, s)
  {
    var bs := FrameBlocks(ps, scans, mouseX, mouseY, fade);
    forall s | s in Flatten(bs) ensures Lit(ps, mouseX, mouseY, fade, s) {
      FlattenMember(bs, s);
      var k :| 0 <= k < |bs| && s in bs[k];
      var pairs := PairLinks(ps, k, scans[k], fade);
      assert bs[k] == pairs + CursorLinks(ps, k, mouseX, mouseY, fade);
      PairLinksLit(ps, k, scans[k], mouseX, mouseY, fade);
    }
  }

  /** The line to partner j is produced exactly when j is one of the partners and the
      line passes the distance and opacity tests. */
  lemma {:induction false} PairLinksComplete(ps: seq<Particle>, i: nat, js: seq<nat>, fade: real -> real, j: nat)
    requires i < |ps| && j < |ps| && forall m :: 0 <= m < |js| ==> js[m] < |ps|
    ensures Link(i, j, Opacity(LineDist(ps, i, j), fade)) in PairLinks(ps, i, js, fade) <==>
      j in js && Visible(LineDist(ps, i, j), fade)
  {
    if js != [] {
      var front := js[..|js| - 1];
      PairLinksComplete(ps, i, front, fade, j);
      assert js == front + [js[|js| - 1]];
    }
  }

  /** Dropping the last element of a list without repeats leaves a list without repeats
      that does not contain it. */
  lemma DistinctFront(js: seq<nat>)
    requires js != [] && Distinct(js)
    ensures Distinct(js[..|js| - 1]) && js[|js| - 1] !in js[..|js| - 1]
  {
    var front := js[..|js| - 1];
    forall m | 0 <= m < |front| ensures front[m] != js[|js| - 1] {
      assert front[m] == js[m];
    }
  }

  /** Partners listed once give lines to different particles. */
  lemma {:induction false} PairLinksDistinct(ps: seq<Particle>, i: nat, js: seq<nat>, fade: real -> real)
    requires i < |ps| && forall m :: 0 <= m < |js| ==> js[m] < |ps|
    requires Distinct(js)
    ensures forall a, b :: 0 <= a < b < |PairLinks(ps, i, js, fade)| ==>
      PairLinks(ps, i, js, fade)[a].to != PairLinks(ps, i, js, fade)[b].to
  {
    if js != [] {
      var front := js[..|js| - 1];
      var last := js[|js| - 1];
      DistinctFront(js);
      PairLinksDistinct(ps, i, front, fade);
      var head := PairLinks(ps, i, front, fade);
      var segs := PairLinks(ps, i, js, fade);
      assert segs == head + LinkTo(ps, i, last, fade);
      forall a, b | 0 <= a < b < |segs| ensures segs[a].to != segs[b].to {
        if b < |head| {
          assert segs[a] == head[a] && segs[b] == head[b];
        } else {
          var tail := LinkTo(ps, i, last, fade);
          assert segs[b] == tail[b - |head|] && tail[b - |head|].to == last;
          assert segs[a] == head[a] && head[a].to in front;
        }
      }
    }
  }

  /** Particle k's lines include the line to j exactly when j is one of k's scanned
      partners and the line passes the distance and opacity tests. */
  lemma ParticleLinksComplete(ps: seq<Particle>, scans: seq<seq<nat>>, mouseX: real, mouseY: real, fade: real -> real, k: nat, i: nat, j: nat)
    requires k < |ps| == |scans| && ScansValid(scans, |ps|) && i < |ps| && j < |ps|
    ensures Link(i, j, Opacity(LineDist(ps, i, j), fade)) in ParticleLinks(ps, scans, mouseX, mouseY, fade, k) <==>
      i == k && j in scans[k] && Visible(LineDist(ps, i, j), fade)
  {
    var link := Link(i, j, Opacity(LineDist(ps, i, j), fade));
    var pairs := PairLinks(ps, k, scans[k], fade);
    var cursor := CursorLinks(ps, k, mouseX, mouseY, fade);
    assert ParticleLinks(ps, scans, mouseX, mouseY, fade, k) == pairs + cursor;
    assert link !in cursor;
    if i == k {
      PairLinksComplete(ps, k, scans[k], fade, j);
    } else {
      assert link !in pairs;
    }
  }

  /** The frame holds the line from particle i to particle j exactly when j is one of i's
      scanned partners and the line passes the distance and opacity tests. */
  lemma FrameLinksComplete(ps: seq<Particle>, scans: seq<seq<nat>>, mouseX: real, mouseY: real, fade: real -> real, i: nat, j: nat)
    requires |ps| == |scans| && ScansValid(scans, |ps|) && i < |ps| && j < |ps|
    ensures Link(i, j, Opacity(LineDist(ps, i, j), fade)) in FrameLinks(ps, scans, mouseX, mouseY, fade) <==>
      j in scans[i] && Visible(LineDist(ps, i, j), fade)
  {
    var bs := FrameBlocks(ps, scans, mouseX, mouseY, fade);
    var link := Link(i, j, Opacity(LineDist(ps, i, j), fade));
    FlattenMember(bs, link);
    ParticleLinksComplete(ps, scans, mouseX, mouseY, fade, i, i, j);
    assert bs[i] == ParticleLinks(ps, scans, mouseX, mouseY, fade, i);
    if link in Flatten(bs) {
      var k :| 0 <= k < |bs| && link in bs[k];
      assert bs[k] == ParticleLinks(ps, scans, mouseX, mouseY, fade, k);
      ParticleLinksComplete(ps, scans, mouseX, mouseY, fade, k, i, j);
    }
  }

  /** No line joins a particle to itself. */
  predicate NoSelfLink(segs: seq<Segment>) {
    forall s :: s in segs && s.Link? ==> s.from != s.to
  }

  /** No two lines join the same two particles, in either direction. */
  predicate NoRepeatedPair(segs: seq<Segment>) {
    forall a, b :: 0 <= a < b < |segs| && segs[a].Link? && segs[b].Link? ==>
      !SamePair((segs[a].from, segs[a].to), (segs[b].from, segs[b].to))
  }

  /** No line of the first list joins the same pair as a line of the second. */
  predicate Apart(front: seq<Segment>, block: seq<Segment>) {
    forall s, t :: s in front && t in block && s.Link? && t.Link? ==> !SamePair((s.from, s.to), (t.from, t.to))
  }

  /** A scanned partner is another particle, with a larger id. */
  lemma ScanMember(scans: seq<seq<nat>>, ids: seq<int>, i: nat, j: nat)
    requires ScansValid(scans, |ids|) && ScansOrdered(scans, ids) && i < |scans| && j in scans[i]
    ensures j < |ids| && j != i && ids[i] < ids[j]
  {
    var m :| 0 <= m < |scans[i]| && scans[i][m] == j;
  }

  /** With the id filter of the scan, no line joins a particle to itself. */
  lemma NoSelfLinks(ps: seq<Particle>, scans: seq<seq<nat>>, mouseX: real, mouseY: real, fade: real -> real)
    requires |ps| == |scans| && ScansValid(scans, |ps|) && ScansOrdered(scans, Ids(ps))
    ensures NoSelfLink(FrameLinks(ps, scans, mouseX, mouseY, fade))
  {
    FrameLinksPlaced(ps, scans, mouseX, mouseY, fade);
    forall s | s in FrameLinks(ps, scans, mouseX, mouseY, fade) && s.Link? ensures s.from != s.to {
      ScanMember(scans, Ids(ps), s.from, s.to);
    }
  }

  /** The lines of one particle repeat no pair when its scan lists each partner once. */
  lemma ParticleLinksOnce(ps: seq<Particle>, scans: seq<seq<nat>>, mouseX: real, mouseY: real, fade: real -> real, i: nat)
    requires i < |ps| == |scans| && ScansValid(scans, |ps|) && ScansOrdered(scans, Ids(ps)) && Distinct(scans[i])
    ensures NoRepeatedPair(ParticleLinks(ps, scans, mouseX, mouseY, fade, i))
  {
    var pairs := PairLinks(ps, i, scans[i], fade);
    var segs := ParticleLinks(ps, scans, mouseX, mouseY, fade, i);
    assert segs == pairs + CursorLinks(ps, i, mouseX, mouseY, fade);
    PairLinksDistinct(ps, i, scans[i], fade);
    forall a, b | 0 <= a < b < |segs| && segs[a].Link? && segs[b].Link?
      ensures !SamePair((segs[a].from, segs[a].to), (segs[b].from, segs[b].to))
    {
      ScanMember(scans, Ids(ps), i, segs[b].to);
      if b < |pairs| {
        assert segs[a] == pairs[a] && segs[b] == pairs[b];
      }
    }
  }

  /** The lines of an earlier particle and those of a later one never join the same pair:
      a shared pair would need ids increasing around a cycle. */
  lemma BlocksApart(ps: seq<Particle>, scans: seq<seq<nat>>, mouseX: real, mouseY: real, fade: real -> real, k: nat, l: nat)
    requires k < l < |ps| == |scans| && ScansValid(scans, |ps|) && ScansOrdered(scans, Ids(ps))
    ensures Apart(ParticleLinks(ps, scans, mouseX, mouseY, fade, k), ParticleLinks(ps, scans, mouseX, mouseY, fade, l))
  {
    var front, block := ParticleLinks(ps, scans, mouseX, mouseY, fade, k), ParticleLinks(ps, scans, mouseX, mouseY, fade, l);
    forall s, t | s in front && t in block && s.Link? && t.Link?
      ensures !SamePair((s.from, s.to), (t.from, t.to))
    {
      ScanMember(scans, Ids(ps), s.from, s.to);
      ScanMember(scans, Ids(ps), t.from, t.to);
    }
  }

  /** Two lists of lines that repeat no pair, and share none, repeat none when joined. */
  lemma ConcatOnce(front: seq<Segment>, block: seq<Segment>)
    requires NoRepeatedPair(front) && NoRepeatedPair(block)
    requires Apart(front, block)
    ensures NoRepeatedPair(front + block)
  {
    var segs := front + block;
    forall a, b | 0 <= a < b < |segs| && segs[a].Link? && segs[b].Link?
      ensures !SamePair((segs[a].from, segs[a].to), (segs[b].from, segs[b].to))
    {
      if a >= |front| {
        assert segs[a] == block[a - |front|] && segs[b] == block[b - |front|];
      } else if b >= |front| {
        assert segs[a] == front[a] && segs[b] == block[b - |front|];
        assert segs[a] in front && segs[b] in block;
      } else {
        assert segs[a] == front[a] && segs[b] == front[b];
      }
    }
  }

  /** Blocks that each repeat no pair, and that pairwise share none, repeat none when joined. */
  lemma {:induction false} FlattenOnce(bs: seq<seq<Segment>>)
    requires forall k :: 0 <= k < |bs| ==> NoRepeatedPair(bs[k])
    requires forall k, l :: 0 <= k < l < |bs| ==> Apart(bs[k], bs[l])
    ensures NoRepeatedPair(Flatten(bs))
  {
    if bs != [] {
      var front := bs[..|bs| - 1];
      var last := bs[|bs| - 1];
      assert forall k :: 0 <= k < |front| ==> front[k] == bs[k];
      FlattenOnce(front);
      forall s, t | s in Flatten(front) && t in last && s.Link? && t.Link?
        ensures !SamePair((s.from, s.to), (t.from, t.to))
      {
        FlattenMember(front, s);
        var k :| 0 <= k < |front| && s in front[k];
        assert Apart(bs[k], last);
      }
      ConcatOnce(Flatten(front), last);
    }
  }

  /** With the id filter of the scan and no partner listed twice, the pass strokes each
      pair of particles at most once. */
  lemma LinkedOnce(ps: seq<Particle>, scans: seq<seq<nat>>, mouseX: real, mouseY: real, fade: real -> real)
    requires |ps| == |scans| && ScansValid(scans, |ps|) && ScansOrdered(scans, Ids(ps))
    requires forall i :: 0 <= i < |scans| ==> Distinct(scans[i])
    ensures NoRepeatedPair(FrameLinks(ps, scans, mouseX, mouseY, fade))
  {
    var bs := FrameBlocks(ps, scans, mouseX, mouseY, fade);
    forall k | 0 <= k < |bs| ensures NoRepeatedPair(bs[k]) {
      ParticleLinksOnce(ps, scans, mouseX, mouseY, fade, k);
    }
    forall k, l | 0 <= k < l < |bs| ensures Apart(bs[k], bs[l]) {
      BlocksApart(ps, scans, mouseX, mouseY, fade, k, l);
    }
    FlattenOnce(bs);
  }

  /** The lines from particle i to the first m entries of cell, in cell order, skipping
      entries whose id is not larger than particle i's: the cell loop of the line pass. */
  function CellLinks(ps: seq<Particle>, i: nat, cell: Cell, m: nat, fade: real -> real): seq<Segment>
    requires i < |ps| && m <= |cell| && forall t :: 0 <= t < |cell| ==> cell[t] < |ps|
  {
    if m == 0 then []
    else
      var j := cell[m - 1];
      CellLinks(ps, i, cell, m - 1, fade) + (if ps[j].id <= ps[i].id then [] else LinkTo(ps, i, j, fade))
  }

  /** The cell loop strokes the lines to the cell's candidates. */
  lemma {:induction false} CellLinksArePairLinks(ps: seq<Particle>, i: nat, cell: Cell, m: nat, fade: real -> real)
    requires i < |ps| && m <= |cell| && forall t :: 0 <= t < |cell| ==> cell[t] < |ps|
    ensures CellLinks(ps, i, cell, m, fade) == PairLinks(ps, i, CellCandidates(Ids(ps), i, cell[..m]), fade)
  {
    if m == 0 {
      assert cell[..0] == [];
    } else {
      var j := cell[m - 1];
      var before := CellCandidates(Ids(ps), i, cell[..m - 1]);
      CellLinksArePairLinks(ps, i, cell, m - 1, fade);
      CellCandidatesStep(Ids(ps), i, cell, m - 1);
      if ps[j].id <= ps[i].id {
        assert before + [] == before;
      } else {
        PairLinksSnoc(ps, i, before, j, fade);
      }
    }
  }

  /** The lines stroked from particle i over the first k cells of the scan around
      (row, col), skipping cells outside the grid: the block loop of the line pass. */
  function BlockLinks(ps: seq<Particle>, g: Grid, rows: nat, cols: nat, i: nat, row: int, col: int, k: nat, fade: real -> real): seq<Segment>
    requires i < |ps| && Shaped(g, rows, cols) && IndicesBelow(g, |ps|) && k <= 9
  {
    if k == 0 then []
    else
      var rc := BlockCell(row, col, k - 1);
      BlockLinks(ps, g, rows, cols, i, row, col, k - 1, fade) +
      (if InGrid(rows, cols, rc.0, rc.1) then CellLinks(ps, i, g[rc.0][rc.1], |g[rc.0][rc.1]|, fade) else [])
  }

  /** The block loop strokes the lines to the block's candidates. */
  lemma {:induction false} BlockLinksArePairLinks(ps: seq<Particle>, g: Grid, rows: nat, cols: nat, i: nat, row: int, col: int, k: nat, fade: real -> real)
    requires i < |ps| && Shaped(g, rows, cols) && IndicesBelow(g, |ps|) && k <= 9
    ensures BlockLinks(ps, g, rows, cols, i, row, col, k, fade) == PairLinks(ps, i, BlockCandidates(Ids(ps), g, rows, cols, i, row, col, k), fade)
  {
    if k > 0 {
      BlockLinksArePairLinks(ps, g, rows, cols, i, row, col, k - 1, fade);
      BlockLinksStep(ps, g, rows, cols, i, row, col, k, fade);
    }
  }

  /** One more cell of the block loop, given the lines of the cells before it. */
  lemma BlockLinksStep(ps: seq<Particle>, g: Grid, rows: nat, cols: nat, i: nat, row: int, col: int, k: nat, fade: real -> real)
    requires i < |ps| && Shaped(g, rows, cols) && IndicesBelow(g, |ps|) && 0 < k <= 9
    requires BlockLinks(ps, g, rows, cols, i, row, col, k - 1, fade) ==
      PairLinks(ps, i, BlockCandidates(Ids(ps), g, rows, cols, i, row, col, k - 1), fade)
    ensures BlockLinks(ps, g, rows, cols, i, row, col, k, fade) ==
      PairLinks(ps, i, BlockCandidates(Ids(ps), g, rows, cols, i, row, col, k), fade)
  {
    var ids, rc := Ids(ps), BlockCell(row, col, k - 1);
    var before := BlockCandidates(ids, g, rows, cols, i, row, col, k - 1);
    var tail := if InGrid(rows, cols, rc.0, rc.1) then CellCandidates(ids, i, g[rc.0][rc.1]) else [];
    var tailLinks := if InGrid(rows, cols, rc.0, rc.1) then CellLinks(ps, i, g[rc.0][rc.1], |g[rc.0][rc.1]|, fade) else [];
    assert BlockCandidates(ids, g, rows, cols, i, row, col, k) == before + tail;
    assert BlockLinks(ps, g, rows, cols, i, row, col, k, fade) == BlockLinks(ps, g, rows, cols, i, row, col, k - 1, fade) + tailLinks;
    if InGrid(rows, cols, rc.0, rc.1) {
      var cell := g[rc.0][rc.1];
      CellLinksArePairLinks(ps, i, cell, |cell|, fade);
      assert cell[..|cell|] == cell;
    }
    PairLinksConcat(ps, i, before, tail, fade);
  }

  /** One more particle of the line pass: its block loop, then its cursor line. */
  lemma FrameLinksStep(ps: seq<Particle>, g: Grid, rows: nat, cols: nat, width: real, height: real,
                       mouseX: real, mouseY: real, fade: real -> real, n: nat, before: seq<Segment>)
    requires Shaped(g, rows, cols) && IndicesBelow(g, |ps|) && n < |ps|
    requires before == Flatten(FrameBlocks(ps, Scans(ps, g, rows, cols, width, height), mouseX, mouseY, fade)[..n])
    ensures Flatten(FrameBlocks(ps, Scans(ps, g, rows, cols, width, height), mouseX, mouseY, fade)[..n + 1]) ==
      before + BlockLinks(ps, g, rows, cols, n, CellIndex(ps[n].y, height), CellIndex(ps[n].x, width), 9, fade)
             + CursorLinks(ps, n, mouseX, mouseY, fade)
  {
    var scans := Scans(ps, g, rows, cols, width, height);
    var bs := FrameBlocks(ps, scans, mouseX, mouseY, fade);
    FlattenPrefix(bs, n);
    BlockLinksArePairLinks(ps, g, rows, cols, n, CellIndex(ps[n].y, height), CellIndex(ps[n].x, width), 9, fade);
    assert bs[n] == ParticleLinks(ps, scans, mouseX, mouseY, fade, n);
  }

  /** Over a grid rebuilt from the same positions, the pass strokes the line between two
      particles, from the one with the smaller id, exactly when it passes the distance and
      opacity tests: no visible pair is missed by the 3x3 scan. */
  lemma FreshGridLinks(ps: seq<Particle>, width: real, height: real, mouseX: real, mouseY: real, fade: real -> real, i: nat, j: nat)
    requires 0.0 < width && 0.0 < height && i < |ps| && j < |ps| && ps[i].id < ps[j].id
    ensures var rows, cols := CellCount(height), CellCount(width);
      Link(i, j, Opacity(LineDist(ps, i, j), fade)) in
        FrameLinks(ps, Scans(ps, Bucketed(ps, width, height, rows, cols, |ps|), rows, cols, width, height), mouseX, mouseY, fade)
      <==> Visible(LineDist(ps, i, j), fade)
  {
    var rows, cols := CellCount(height), CellCount(width);
    var g := Bucketed(ps, width, height, rows, cols, |ps|);
    FrameLinksComplete(ps, Scans(ps, g, rows, cols, width, height), mouseX, mouseY, fade, i, j);
    if Visible(LineDist(ps, i, j), fade) {
      NearPairScanned(ps, width, height, i, j);
    }
  }

  /** The mouse's parking place is not over the banner. */
  lemma SentinelInactive()
    ensures !MouseIsActive(MouseSentinel, MouseSentinel)
  {
  }

  /** While the mouse is parked the pass strokes no cursor line. */
  lemma ParkedMouseDrawsNoCursorLines(ps: seq<Particle>, scans: seq<seq<nat>>, fade: real -> real)
    requires |ps| == |scans| && ScansValid(scans, |ps|)
    ensures forall s :: s in FrameLinks(ps, scans, MouseSentinel, MouseSentinel, fade) ==> s.Link?
  {
    SentinelInactive();
    FrameLinksPlaced(ps, scans, MouseSentinel, MouseSentinel, fade);
  }
}
