/**
 * The propagation rule of the light-field simulator (`update_cell` and
 * `received_energy`), reduced to its discrete skeleton: which cells are read,
 * which neighbours are visited in which order, how the target is re-elected
 * and how many neighbours are counted. The floating-point parts are the
 * parameters `beam` (the throughput and distance attenuation of
 * `received_energy`) and `blend` (the accumulation, average and blur).
 */
module Propagation {
  import opened DenseGrid

  const WIDTH: nat := 128
  const HEIGHT: nat := 128
  const DIMENSIONS: Coord := Coord(WIDTH, HEIGHT)

  /**
   * An `f32` energy. The model never computes with it: it is copied,
   * compared as a score, and handed to `beam` and `blend`.
   */
  type Energy = real

  const DEFAULT_ENERGY: Energy := 0.0

  /** A cell: its energy and the coordinate of the source it currently draws from. */
  datatype Cell = Cell(energy: Energy, target: Coord)

  /**
   * The floating-point tail of `received_energy` for `source != sink`: given
   * the source, the sink, whether the horizontal and the vertical sample cell
   * target the source, and the source's energy, the attenuated energy.
   */
  type Beam = (Coord, Coord, bool, bool, Energy) -> Energy

  /**
   * The floating-point tail of `update_cell`: from the cell's energy, the
   * energy received from the elected target, the energies of the visited
   * neighbours (the summands of `nb_sum`) and `nb_count`, the new energy.
   */
  type Blend = (Energy, Energy, seq<Energy>, nat) -> Energy

  /**
   * The storage of a simulation grid: one cell per coordinate of
   * `DIMENSIONS`, in row-major order, every target a coordinate of the grid.
   */
  predicate Frame(cells: seq<Cell>)
  {
    |cells| == WIDTH * HEIGHT &&
    forall k | 0 <= k < |cells| :: InRange(cells[k].target, DIMENSIONS)
  }

  /** A coordinate of the simulation grid. */
  type Pos = c: Coord | InRange(c, DIMENSIONS) witness Coord(0, 0)

  /** The cell at `c` in row-major storage of width `WIDTH`. */
  function At(cells: seq<Cell>, c: Pos): Cell
    requires |cells| == WIDTH * HEIGHT
  {
    cells[FlattenIndex(c, WIDTH)]
  }

  /** A reader grid of the simulation: `WIDTH x HEIGHT`, every target a cell of the grid. */
  ghost predicate WellFormed(g: Grid<Cell>)
    reads g
  {
    g.Valid() && g.dimensions == DIMENSIONS && Frame(g.data)
  }

  /** Indexed access into a simulation grid reads `At` of its storage, and never fails there. */
  lemma IndexIsAt(g: Grid<Cell>, c: Pos)
    requires g.Valid() && g.dimensions == DIMENSIONS
    ensures g.Index(c) == Ok(At(g.data, c))
  {
    FlattenInRange(c, DIMENSIONS);
  }

  /** `b` lies between `a` and `c`, inclusive. */
  predicate Between(a: nat, b: nat, c: nat)
  {
    (a <= b <= c) || (c <= b <= a)
  }

  /** `i32::signum`. */
  function Signum(n: int): int
  {
    if n > 0 then 1 else if n < 0 then -1 else 0
  }

  /**
   * `x_sample`: the sink moved one column towards the source,
   * `sink + (signum(source.x - sink.x), 0)`. It never leaves the span
   * between sink and source, so the conversion back to `UVec2` never wraps.
   */
  function XSample(source: Coord, sink: Coord): (r: Coord)
    ensures r.y == sink.y && Between(sink.x, r.x, source.x)
    ensures r.x == sink.x <==> source.x == sink.x
    ensures r.x <= sink.x + 1 && sink.x <= r.x + 1
  {
    Coord(sink.x + Signum(source.x - sink.x), sink.y)
  }

  /** `y_sample`: the sink moved one row towards the source. */
  function YSample(source: Coord, sink: Coord): (r: Coord)
    ensures r.x == sink.x && Between(sink.y, r.y, source.y)
    ensures r.y == sink.y <==> source.y == sink.y
    ensures r.y <= sink.y + 1 && sink.y <= r.y + 1
  {
    Coord(sink.x, sink.y + Signum(source.y - sink.y))
  }

  /** With source and sink in a grid, both sample cells are in that grid. */
  lemma SamplesInRange(source: Coord, sink: Coord, dimensions: Coord)
    requires InRange(source, dimensions) && InRange(sink, dimensions)
    ensures InRange(XSample(source, sink), dimensions)
    ensures InRange(YSample(source, sink), dimensions)
  {
  }

  /**
   * `received_energy(reader, source, sink)`: a cell sourcing itself receives
   * its own energy; otherwise `beam` attenuates the source's energy, gated by
   * whether the two sample cells next to the sink target the same source.
   * Every cell read here is in range (`SamplesInRange`).
   */
  function ReceivedEnergy(cells: seq<Cell>, source: Pos, sink: Pos, beam: Beam): Energy
    requires |cells| == WIDTH * HEIGHT
  {
    if source == sink then
      At(cells, source).energy
    else
      var xSample, ySample := XSample(source, sink), YSample(source, sink);
      beam(source, sink,
           At(cells, xSample).target == source,
           At(cells, ySample).target == source,
           At(cells, source).energy)
  }

  /** A cell that is its own source receives exactly its own energy, whatever `beam` is. */
  lemma SelfReceivesOwnEnergy(cells: seq<Cell>, source: Pos, beam: Beam)
    requires |cells| == WIDTH * HEIGHT
    ensures ReceivedEnergy(cells, source, source, beam) == At(cells, source).energy
  {
  }

  /**
   * `received_energy` reads only three cells: storages that agree on the
   * source and on the two sample cells give the same score.
   */
  lemma ReceivedEnergyIsLocal(c1: seq<Cell>, c2: seq<Cell>, source: Pos, sink: Pos, beam: Beam)
    requires |c1| == WIDTH * HEIGHT && |c2| == WIDTH * HEIGHT
    requires At(c1, source) == At(c2, source)
    requires At(c1, XSample(source, sink)) == At(c2, XSample(source, sink))
    requires At(c1, YSample(source, sink)) == At(c2, YSample(source, sink))
    ensures ReceivedEnergy(c1, source, sink, beam) == ReceivedEnergy(c2, source, sink, beam)
  {
  }

  /** `c` is one of the four cells sharing an edge with `pos`. */
  predicate Adjacent(c: Coord, pos: Coord)
  {
    (c.y == pos.y && (c.x + 1 == pos.x || pos.x + 1 == c.x)) ||
    (c.x == pos.x && (c.y + 1 == pos.y || pos.y + 1 == c.y))
  }

  /**
   * The neighbours `update_cell` visits, in its order left, up, right, down,
   * each guarded by `pos.x > 0`, `pos.y > 0`, `pos.x < WIDTH - 1`,
   * `pos.y < HEIGHT - 1`: exactly the in-range cells adjacent to `pos`.
   */
  function Neighbours(pos: Pos): (r: seq<Pos>)
    ensures forall c: Coord :: c in r <==> InRange(c, DIMENSIONS) && Adjacent(c, pos)
  {
    Left(pos) + Up(pos) + Right(pos) + Down(pos)
  }

  /** The neighbour `pos - UVec2::X`, read when `pos.x > 0`; empty otherwise. */
  function Left(pos: Pos): seq<Pos>
  {
    if pos.x > 0 then [Coord(pos.x - 1, pos.y)] else []
  }

  /** The neighbour `pos - UVec2::Y`, read when `pos.y > 0`; empty otherwise. */
  function Up(pos: Pos): seq<Pos>
  {
    if pos.y > 0 then [Coord(pos.x, pos.y - 1)] else []
  }

  /** The neighbour `pos + UVec2::X`, read when `pos.x < WIDTH - 1`; empty otherwise. */
  function Right(pos: Pos): seq<Pos>
  {
    if pos.x < WIDTH - 1 then [Coord(pos.x + 1, pos.y)] else []
  }

  /** The neighbour `pos + UVec2::Y`, read when `pos.y < HEIGHT - 1`; empty otherwise. */
  function Down(pos: Pos): seq<Pos>
  {
    if pos.y < HEIGHT - 1 then [Coord(pos.x, pos.y + 1)] else []
  }

  /** `nb_count`'s final value: 2 at a corner, 3 elsewhere on the border, 4 inside. */
  lemma NeighbourCount(pos: Pos)
    ensures var onX, onY := pos.x == 0 || pos.x == WIDTH - 1, pos.y == 0 || pos.y == HEIGHT - 1;
      |Neighbours(pos)| == if onX && onY then 2 else if onX || onY then 3 else 4
  {
  }

  /** The origin considers only its right and lower neighbours. */
  lemma OriginNeighbours()
    ensures Neighbours(Coord(0, 0)) == [Coord(1, 0), Coord(0, 1)]
  {
  }

  /** The targets recorded in the cells at `cs`, in order. */
  function TargetsAt(cells: seq<Cell>, cs: seq<Pos>): (r: seq<Pos>)
    requires Frame(cells)
    ensures |r| == |cs|
    ensures forall k | 0 <= k < |cs| :: r[k] == At(cells, cs[k]).target
    decreases |cs|
  {
    if cs == [] then []
    else TargetsAt(cells, cs[..|cs| - 1]) + [At(cells, cs[|cs| - 1]).target]
  }

  /** The energies of the cells at `cs`, in order: the summands of `nb_sum`. */
  function EnergiesAt(cells: seq<Cell>, cs: seq<Pos>): (r: seq<Energy>)
    requires |cells| == WIDTH * HEIGHT
    ensures |r| == |cs|
    ensures forall k | 0 <= k < |cs| :: r[k] == At(cells, cs[k]).energy
    decreases |cs|
  {
    if cs == [] then []
    else EnergiesAt(cells, cs[..|cs| - 1]) + [At(cells, cs[|cs| - 1]).energy]
  }

  /** A score per candidate source, as `received_energy` gives it for a fixed sink. */
  type Score = Pos -> Energy

  /** The scores `better_target` compares for the sink `sink`. */
  function ScoreAt(cells: seq<Cell>, sink: Pos, beam: Beam): Score
    requires |cells| == WIDTH * HEIGHT
  {
    (c: Pos) => ReceivedEnergy(cells, c, sink, beam)
  }

  /** `better_target(lhs, rhs)`: the incumbent `lhs` unless `rhs` scores strictly more. */
  function BetterTarget(score: Score, lhs: Pos, rhs: Pos): Pos
  {
    if score(lhs) >= score(rhs) then lhs else rhs
  }

  /**
   * The chain of `better_target` calls: starting from `incumbent`, each
   * candidate in turn is compared against the previous winner.
   */
  function Elect(score: Score, incumbent: Pos, candidates: seq<Pos>): (r: Pos)
    ensures r == incumbent || r in candidates
    decreases |candidates|
  {
    if candidates == [] then incumbent
    else BetterTarget(score, Elect(score, incumbent, candidates[..|candidates| - 1]), candidates[|candidates| - 1])
  }

  /** The winner scores at least as much as the incumbent and every candidate. */
  lemma {:induction false} ElectMaximal(score: Score, incumbent: Pos, candidates: seq<Pos>)
    ensures var best := score(Elect(score, incumbent, candidates));
      score(incumbent) <= best && forall k | 0 <= k < |candidates| :: score(candidates[k]) <= best
    decreases |candidates|
  {
    if candidates != [] {
      var prefix := candidates[..|candidates| - 1];
      ElectMaximal(score, incumbent, prefix);
      assert forall k | 0 <= k < |prefix| :: prefix[k] == candidates[k];
    }
  }

  /**
   * Ties keep the incumbent: the winner is the first of `[incumbent] +
   * candidates` that reaches its score, every earlier one scores strictly less.
   */
  lemma {:induction false} ElectFirstMaximum(score: Score, incumbent: Pos, candidates: seq<Pos>)
    ensures var all, r := [incumbent] + candidates, Elect(score, incumbent, candidates);
      exists k | 0 <= k < |all| :: all[k] == r && forall j | 0 <= j < k :: score(all[j]) < score(r)
    decreases |candidates|
  {
    var all, r := [incumbent] + candidates, Elect(score, incumbent, candidates);
    if candidates == [] {
      assert all[0] == r;
    } else {
      var prefix := candidates[..|candidates| - 1];
      var previous := Elect(score, incumbent, prefix);
      ElectFirstMaximum(score, incumbent, prefix);
      var k :| 0 <= k < |[incumbent] + prefix| && ([incumbent] + prefix)[k] == previous &&
        forall j | 0 <= j < k :: score(([incumbent] + prefix)[j]) < score(previous);
      assert forall j | 0 <= j < |candidates| :: all[j] == ([incumbent] + prefix)[j];
      if r == previous {
        assert all[k] == r;
      } else {
        ElectMaximal(score, incumbent, prefix);
        assert all[|candidates|] == r;
      }
    }
  }

  /** Appending a candidate adds one more `better_target` comparison. */
  lemma ElectSnoc(score: Score, incumbent: Pos, candidates: seq<Pos>, c: Pos)
    ensures Elect(score, incumbent, candidates + [c]) == BetterTarget(score, Elect(score, incumbent, candidates), c)
  {
    assert (candidates + [c])[..|candidates|] == candidates;
  }

  /** The candidates after the cell's own target: itself, then its neighbours' targets. */
  function Candidates(cells: seq<Cell>, pos: Pos): seq<Pos>
    requires Frame(cells)
  {
    [pos] + TargetsAt(cells, Neighbours(pos))
  }

  /** The target `update_cell` elects for `pos`. */
  function NextTarget(cells: seq<Cell>, pos: Pos, beam: Beam): Pos
    requires Frame(cells)
  {
    Elect(ScoreAt(cells, pos, beam), At(cells, pos).target, Candidates(cells, pos))
  }

  /** Position `i + 1` of the candidates is the target of the `i`-th neighbour. */
  lemma CandidateOfNeighbour(cells: seq<Cell>, pos: Pos, i: nat)
    requires Frame(cells) && i < |Neighbours(pos)|
    ensures |Candidates(cells, pos)| == |Neighbours(pos)| + 1
    ensures Candidates(cells, pos)[i + 1] == At(cells, Neighbours(pos)[i]).target
  {
  }

  /**
   * The elected target is one of the candidates `update_cell` compares: the
   * cell's old target, the cell itself, or the target of an in-range neighbour.
   */
  lemma NextTargetIsCandidate(cells: seq<Cell>, pos: Pos, beam: Beam)
    requires Frame(cells)
    ensures var t, ns := NextTarget(cells, pos, beam), Neighbours(pos);
      t == At(cells, pos).target || t == pos || exists i | 0 <= i < |ns| :: t == At(cells, ns[i]).target
  {
    var cands, t := Candidates(cells, pos), NextTarget(cells, pos, beam);
    if t != At(cells, pos).target && t != pos {
      var i :| 0 <= i < |cands| && cands[i] == t;
      CandidateOfNeighbour(cells, pos, i - 1);
    }
  }

  /**
   * No candidate scores more than the elected target: not the old target, not
   * the cell itself, and not any in-range neighbour's target.
   */
  lemma NextTargetIsBest(cells: seq<Cell>, pos: Pos, beam: Beam)
    requires Frame(cells)
    ensures var best, ns := ReceivedEnergy(cells, NextTarget(cells, pos, beam), pos, beam), Neighbours(pos);
      ReceivedEnergy(cells, At(cells, pos).target, pos, beam) <= best &&
      ReceivedEnergy(cells, pos, pos, beam) <= best &&
      forall i | 0 <= i < |ns| :: ReceivedEnergy(cells, At(cells, ns[i]).target, pos, beam) <= best
  {
    var ns, cands := Neighbours(pos), Candidates(cells, pos);
    var score := ScoreAt(cells, pos, beam);
    var t := NextTarget(cells, pos, beam);
    ElectMaximal(score, At(cells, pos).target, cands);
    assert score(cands[0]) <= score(t);
    forall i | 0 <= i < |ns|
      ensures ReceivedEnergy(cells, At(cells, ns[i]).target, pos, beam) <= ReceivedEnergy(cells, t, pos, beam)
    {
      CandidateOfNeighbour(cells, pos, i);
      assert score(cands[i + 1]) <= score(t);
    }
  }

  /**
   * The running state of `update_cell`'s neighbour blocks: the current
   * winner `target`, the energies summed into `nb_sum` so far, and `nb_count`.
   */
  datatype Scan = Scan(target: Pos, energies: seq<Energy>, count: nat)

  /**
   * One guarded block of `update_cell`: when its guard holds, `part` is the
   * one neighbour it reads, whose target competes with the winner and whose
   * energy is counted; otherwise `part` is empty and nothing changes.
   */
  function Visit(cells: seq<Cell>, score: Score, s: Scan, part: seq<Pos>): Scan
    requires Frame(cells) && |part| <= 1
  {
    if part == [] then s
    else Scan(BetterTarget(score, s.target, At(cells, part[0]).target),
              s.energies + [At(cells, part[0]).energy], s.count + 1)
  }

  /** The state after the four blocks, in `update_cell`'s order. */
  function Scanned(cells: seq<Cell>, pos: Pos, score: Score): Scan
    requires Frame(cells)
  {
    var start := Scan(BetterTarget(score, At(cells, pos).target, pos), [], 0);
    Visit(cells, score, Visit(cells, score, Visit(cells, score, Visit(cells, score, start,
      Left(pos)), Up(pos)), Right(pos)), Down(pos))
  }

  /** The state the blocks reach after the neighbours `visited`, as an election. */
  function ScanOf(cells: seq<Cell>, pos: Pos, score: Score, visited: seq<Pos>): Scan
    requires Frame(cells)
  {
    Scan(Elect(score, At(cells, pos).target, [pos] + TargetsAt(cells, visited)),
         EnergiesAt(cells, visited), |visited|)
  }

  /**
   * A block extends the election by the neighbour it reads: visiting `part`
   * after `visited` gives the state of `visited + part`.
   */
  lemma VisitExtends(cells: seq<Cell>, pos: Pos, score: Score, visited: seq<Pos>, part: seq<Pos>)
    requires Frame(cells) && |part| <= 1
    ensures Visit(cells, score, ScanOf(cells, pos, score, visited), part) == ScanOf(cells, pos, score, visited + part)
  {
    if part == [] {
      assert visited + part == visited;
    } else {
      assert part == [part[0]];
      VisitOne(cells, pos, score, visited, part[0]);
    }
  }

  /** A block that reads the neighbour `next`. */
  lemma VisitOne(cells: seq<Cell>, pos: Pos, score: Score, visited: seq<Pos>, next: Pos)
    requires Frame(cells)
    ensures Visit(cells, score, ScanOf(cells, pos, score, visited), [next]) == ScanOf(cells, pos, score, visited + [next])
  {
    var t := At(cells, next).target;
    TargetsAtSnoc(cells, visited, next);
    EnergiesAtSnoc(cells, visited, next);
    ConcatAssociative([pos], TargetsAt(cells, visited), [t]);
    ElectSnoc(score, At(cells, pos).target, [pos] + TargetsAt(cells, visited), t);
  }

  /**
   * The four blocks compute exactly the election over the candidates, the
   * neighbours' energies, and their number.
   */
  lemma ScannedIsElection(cells: seq<Cell>, pos: Pos, score: Score)
    requires Frame(cells)
    ensures Scanned(cells, pos, score)
         == Scan(Elect(score, At(cells, pos).target, Candidates(cells, pos)), EnergiesAt(cells, Neighbours(pos)), |Neighbours(pos)|)
  {
    assert ScanOf(cells, pos, score, []) == Scan(BetterTarget(score, At(cells, pos).target, pos), [], 0) by {
      ElectSnoc(score, At(cells, pos).target, [], pos);
    }
    var l, u, r, d := Left(pos), Up(pos), Right(pos), Down(pos);
    VisitExtends(cells, pos, score, [], l);
    VisitExtends(cells, pos, score, [] + l, u);
    VisitExtends(cells, pos, score, [] + l + u, r);
    VisitExtends(cells, pos, score, [] + l + u + r, d);
    assert [] + l + u + r + d == Neighbours(pos);
  }

  /**
   * The cell `update_cell` computes for `pos`: the target and the
   * neighbours' energies and count left by the four blocks, and the energy
   * `blend` makes of them.
   */
  function NextCell(cells: seq<Cell>, pos: Pos, beam: Beam, blend: Blend): (r: Cell)
    requires Frame(cells)
    ensures InRange(r.target, DIMENSIONS)
  {
    var s := Scanned(cells, pos, ScoreAt(cells, pos, beam));
    Cell(blend(At(cells, pos).energy, ReceivedEnergy(cells, s.target, pos, beam), s.energies, s.count), s.target)
  }

  /**
   * The new cell is the election over the candidates, blended with the
   * energies of exactly the in-range neighbours and their number.
   */
  lemma NextCellIsElection(cells: seq<Cell>, pos: Pos, beam: Beam, blend: Blend)
    requires Frame(cells)
    ensures var t, ns := NextTarget(cells, pos, beam), Neighbours(pos);
      NextCell(cells, pos, beam, blend) ==
      Cell(blend(At(cells, pos).energy, ReceivedEnergy(cells, t, pos, beam), EnergiesAt(cells, ns), |ns|), t)
  {
    ScannedIsElection(cells, pos, ScoreAt(cells, pos, beam));
  }

  /**
   * One guarded block of `update_cell`. `part` is the neighbour the block
   * reads when its guard holds (`Left`, `Up`, `Right`, `Down`) and empty
   * when it does not: the neighbour's target competes with the winner, its
   * energy is added and it is counted.
   */
  method VisitBlock(reader: Grid<Cell>, score: Score, part: seq<Pos>, target: Pos, nbEnergies: seq<Energy>, nbCount: nat)
    returns (target': Pos, nbEnergies': seq<Energy>, nbCount': nat)
    requires WellFormed(reader) && |part| <= 1
    ensures Scan(target', nbEnergies', nbCount') == Visit(reader.data, score, Scan(target, nbEnergies, nbCount), part)
  {
    target', nbEnergies', nbCount' := target, nbEnergies, nbCount;
    if part != [] {
      var nbCell := reader.Index(part[0]).value;
      IndexIsAt(reader, part[0]);
      target' := BetterTarget(score, target, nbCell.target);
      nbEnergies' := nbEnergies + [nbCell.energy];
      nbCount' := nbCount + 1;
    }
  }

  /**
   * The four guarded neighbour blocks of `update_cell`, in its order: the
   * running winner starts as `better_target(target, pos)`.
   */
  method ScanNeighbours(pos: Pos, reader: Grid<Cell>, score: Score) returns (target: Pos, nbEnergies: seq<Energy>, nbCount: nat)
    requires WellFormed(reader)
    ensures Scan(target, nbEnergies, nbCount) == Scanned(reader.data, pos, score)
  {
    var here := reader.Index(pos).value;
    IndexIsAt(reader, pos);
    target := BetterTarget(score, here.target, pos);
    nbEnergies, nbCount := [], 0;
    target, nbEnergies, nbCount := VisitBlock(reader, score, Left(pos), target, nbEnergies, nbCount);
    target, nbEnergies, nbCount := VisitBlock(reader, score, Up(pos), target, nbEnergies, nbCount);
    target, nbEnergies, nbCount := VisitBlock(reader, score, Right(pos), target, nbEnergies, nbCount);
    target, nbEnergies, nbCount := VisitBlock(reader, score, Down(pos), target, nbEnergies, nbCount);
  }

  /**
   * `update_cell(pos, reader)`: elects the target through the guarded
   * neighbour blocks, counting the visited neighbours in `nb_count`, then
   * blends the energy. The neighbour bounds are the constants `WIDTH` and
   * `HEIGHT`, hence the requirement that the reader has those dimensions.
   */
  method UpdateCell(pos: Coord, reader: Grid<Cell>, beam: Beam, blend: Blend) returns (cell: Cell)
    requires WellFormed(reader) && InRange(pos, DIMENSIONS)
    ensures cell == NextCell(reader.data, pos, beam, blend)
  {
    var energy := reader.Index(pos).value.energy;
    IndexIsAt(reader, pos);
    var target, nbEnergies, nbCount := ScanNeighbours(pos, reader, ScoreAt(reader.data, pos, beam));
    var received := ReceivedEnergy(reader.data, target, pos, beam);
    energy := blend(energy, received, nbEnergies, nbCount);
    cell := Cell(energy, target);
  }

  lemma ConcatAssociative<X>(a: seq<X>, b: seq<X>, c: seq<X>)
    ensures a + (b + c) == (a + b) + c
  {
  }

  /** Appending a coordinate appends its cell's target. */
  lemma TargetsAtSnoc(cells: seq<Cell>, cs: seq<Pos>, c: Pos)
    requires Frame(cells)
    ensures TargetsAt(cells, cs + [c]) == TargetsAt(cells, cs) + [At(cells, c).target]
  {
    assert (cs + [c])[..|cs|] == cs;
  }

  /** Appending a coordinate appends its cell's energy. */
  lemma EnergiesAtSnoc(cells: seq<Cell>, cs: seq<Pos>, c: Pos)
    requires |cells| == WIDTH * HEIGHT
    ensures EnergiesAt(cells, cs + [c]) == EnergiesAt(cells, cs) + [At(cells, c).energy]
  {
    assert (cs + [c])[..|cs|] == cs;
  }
}
