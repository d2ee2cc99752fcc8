/**
 * The driver of the simulation: three colour channels, each a grid of
 * cells, held twice in a double buffer. One generation updates every cell
 * of every channel from the read buffer into the write buffer, forces the
 * light sources and the barrier cells, and swaps the buffers.
 */
module Simulation {
  import opened DenseGrid
  import opened DoubleBuffers
  import opened Propagation

  /** A `Vec3` colour; component `i` is the energy of channel `i`. */
  datatype Colour = Colour(x: Energy, y: Energy, z: Energy)

  function Component(colour: Colour, channel: nat): Energy
    requires channel < 3
  {
    if channel == 0 then colour.x else if channel == 1 then colour.y else colour.z
  }

  /** A light source: a cell whose energies are forced to a colour every generation. */
  datatype Light = Light(pos: Pos, colour: Colour)

  /** The six light sources of the simulation. */
  const LIGHTS: seq<Light> := [
    Light(Coord(60, 45), Colour(1.0, 0.0, 0.0)),
    Light(Coord(80, 70), Colour(0.0, 0.0, 1.0)),
    Light(Coord(60, 90), Colour(0.0, 1.0, 0.0)),
    Light(Coord(10, 50), Colour(0.5, 1.0, 0.0)),
    Light(Coord(50, 10), Colour(1.0, 0.0, 1.0)),
    Light(Coord(60, 60), Colour(0.2, 0.2, 0.2))
  ]

  /** The barrier cells: the diagonal `(36, 40), (37, 41), ..., (49, 53)`. */
  const BARRIERS: seq<Pos> := seq(14, i requires 0 <= i < 14 => Coord(36 + i, 40 + i))

  /**
   * The barriers as the simulation builds them: `y = 40 + x - 36` pushed
   * for every `x` in `36..50`.
   */
  method BarrierLine() returns (barriers: seq<Pos>)
    ensures |barriers| == 14
    ensures forall i | 0 <= i < |barriers| :: barriers[i] == Coord(36 + i, 40 + i)
    ensures barriers == BARRIERS
  {
    barriers := [];
    for x := 36 to 50
      invariant |barriers| == x - 36
      invariant forall i | 0 <= i < |barriers| :: barriers[i] == Coord(36 + i, 40 + i)
    {
      var y := 40 + x - 36;
      barriers := barriers + [Coord(x, y)];
    }
  }

  /** No light sits on a barrier, and no two lights share a cell. */
  lemma LightsApart()
    ensures forall j, k | 0 <= j < |LIGHTS| && 0 <= k < |BARRIERS| :: LIGHTS[j].pos != BARRIERS[k]
    ensures forall j, k | 0 <= j < k < |LIGHTS| :: LIGHTS[j].pos != LIGHTS[k].pos
  {
  }

  /////////////////////////////////////////////////////////////////////////////
  // Channels and the double buffer
  /////////////////////////////////////////////////////////////////////////////

  /** `[Grid<Cell>; 3]`: three well-formed grids, three distinct objects. */
  ghost predicate Channels(gs: seq<Grid<Cell>>)
    reads gs
  {
    |gs| == 3 &&
    WellFormed(gs[0]) && WellFormed(gs[1]) && WellFormed(gs[2]) &&
    gs[0] != gs[1] && gs[0] != gs[2] && gs[1] != gs[2]
  }

  /** No grid of `a` is a grid of `b`. */
  ghost predicate Apart(a: seq<Grid<Cell>>, b: seq<Grid<Cell>>)
  {
    forall i, j | 0 <= i < |a| && 0 <= j < |b| :: a[i] != b[j]
  }

  /** The simulation's buffer: both slots hold three channels, six grids in all. */
  ghost predicate BufferValid(buffer: DoubleBuffer<seq<Grid<Cell>>>)
    reads buffer, buffer.read, buffer.write
  {
    Channels(buffer.read) && Channels(buffer.write) && Apart(buffer.read, buffer.write)
  }

  /////////////////////////////////////////////////////////////////////////////
  // Generation
  /////////////////////////////////////////////////////////////////////////////

  /**
   * `writer[pos] = cell` on a simulation grid: the indexed write never
   * fails there and replaces exactly the slot of `pos`.
   */
  method Store(writer: Grid<Cell>, pos: Pos, cell: Cell)
    requires WellFormed(writer) && InRange(cell.target, DIMENSIONS)
    modifies writer
    ensures WellFormed(writer)
    ensures writer.data == old(writer.data)[FlattenIndex(pos, WIDTH) := cell]
  {
    var written := writer.Put(pos, cell);
  }

  /** The cell `update_cell` makes for the `k`-th coordinate of the row-major scan. */
  function UpdatedAt(cells: seq<Cell>, k: nat, beam: Beam, blend: Blend): Cell
    requires Frame(cells) && k < WIDTH * HEIGHT
  {
    PositionInRange(k, DIMENSIONS);
    NextCell(cells, Position(k, WIDTH), beam, blend)
  }

  /** A channel after one generation, before forcing. */
  function Generated(cells: seq<Cell>, beam: Beam, blend: Blend): (r: seq<Cell>)
    requires Frame(cells)
    ensures Frame(r)
  {
    seq(WIDTH * HEIGHT, k requires 0 <= k < WIDTH * HEIGHT => UpdatedAt(cells, k, beam, blend))
  }

  /** Every cell of a generated channel is `update_cell` of the old channel at that cell's own coordinate. */
  lemma GeneratedAt(cells: seq<Cell>, c: Pos, beam: Beam, blend: Blend)
    requires Frame(cells)
    ensures At(Generated(cells, beam, blend), c) == NextCell(cells, c, beam, blend)
  {
    PositionCovers(c, DIMENSIONS);
  }

  /** The first `n` slots of `out` hold the generated cells of `cells`. */
  ghost predicate GeneratedUpTo(out: seq<Cell>, cells: seq<Cell>, n: nat, beam: Beam, blend: Blend)
    requires Frame(cells) && n <= WIDTH * HEIGHT
  {
    n <= |out| && forall k | 0 <= k < n :: out[k] == UpdatedAt(cells, k, beam, blend)
  }

  /**
   * The body of the closure: `writer[pos] = update_cell(pos, reader)` for
   * the `n`-th coordinate of the scan.
   */
  method GenerateCell(reader: Grid<Cell>, writer: Grid<Cell>, pos: Pos, ghost n: nat, beam: Beam, blend: Blend)
    requires WellFormed(reader) && WellFormed(writer) && reader != writer
    requires FlattenIndex(pos, WIDTH) == n && GeneratedUpTo(writer.data, reader.data, n, beam, blend)
    modifies writer
    ensures WellFormed(writer) && GeneratedUpTo(writer.data, reader.data, n + 1, beam, blend)
  {
    FlattenPosition(pos, WIDTH);
    var cell := UpdateCell(pos, reader, beam, blend);
    Store(writer, pos, cell);
  }

  /**
   * `next` on a cursor over the simulation grid: the `n`-th call yields the
   * coordinate stored in slot `n`, until all `WIDTH * HEIGHT` are produced.
   */
  method NextIndex(indices: CellIndices) returns (item: Option<Coord>)
    requires indices.Valid() && indices.dimensions == DIMENSIONS
    modifies indices
    ensures indices.Valid() && indices.steps == old(indices.steps) + 1
    ensures item.Some? <==> old(indices.steps) < WIDTH * HEIGHT
    ensures item.Some? ==> InRange(item.value, DIMENSIONS) && FlattenIndex(item.value, WIDTH) == old(indices.steps)
  {
    PositionInRange(indices.steps, DIMENSIONS);
    PositionFlatten(indices.steps, WIDTH);
    item := indices.Next();
  }

  /**
   * One channel: `reader.iter_indices().for_each(|pos| writer[pos] =
   * update_cell(pos, reader))`. The cursor yields every coordinate once in
   * row-major order, so slot `k` of the writer receives the update of the
   * `k`-th coordinate.
   */
  method GenerateChannel(reader: Grid<Cell>, writer: Grid<Cell>, beam: Beam, blend: Blend)
    requires WellFormed(reader) && WellFormed(writer) && reader != writer
    modifies writer
    ensures WellFormed(writer) && writer.data == Generated(reader.data, beam, blend)
    ensures reader.data == old(reader.data)
  {
    // `reader.iter_indices()`: a cursor over the reader's dimensions, which are `DIMENSIONS`.
    var indices := new CellIndices(DIMENSIONS);
    var item := NextIndex(indices);
    while item.Some?
      invariant fresh(indices) && indices.Valid() && indices.dimensions == DIMENSIONS
      invariant 1 <= indices.steps <= WIDTH * HEIGHT + 1
      invariant item.Some? <==> indices.steps - 1 < WIDTH * HEIGHT
      invariant item.Some? ==> InRange(item.value, DIMENSIONS) && FlattenIndex(item.value, WIDTH) == indices.steps - 1
      invariant WellFormed(writer) && GeneratedUpTo(writer.data, reader.data, indices.steps - 1, beam, blend)
      decreases WIDTH * HEIGHT + 1 - indices.steps
    {
      GenerateCell(reader, writer, item.value, indices.steps - 1, beam, blend);
      item := NextIndex(indices);
    }
  }

  /** `for i in 0..3`: every channel of the writer is generated from the same channel of the reader. */
  method GenerationPass(reader: seq<Grid<Cell>>, writer: seq<Grid<Cell>>, beam: Beam, blend: Blend)
    requires Channels(reader) && Channels(writer) && Apart(reader, writer)
    modifies writer
    ensures Channels(writer)
    ensures forall i | 0 <= i < 3 :: writer[i].data == Generated(reader[i].data, beam, blend)
    ensures forall i | 0 <= i < 3 :: reader[i].data == old(reader[i].data)
  {
    for i := 0 to 3
      invariant Channels(writer)
      invariant forall j | 0 <= j < i :: writer[j].data == Generated(reader[j].data, beam, blend)
    {
      GenerateChannel(reader[i], writer[i], beam, blend);
    }
  }

  /////////////////////////////////////////////////////////////////////////////
  // Forcing: light sources and barriers
  /////////////////////////////////////////////////////////////////////////////

  /** `writer[pos].energy = energy`: the cell at `pos` keeps its target and takes `energy`. */
  function Lit(cells: seq<Cell>, pos: Pos, energy: Energy): (r: seq<Cell>)
    requires |cells| == WIDTH * HEIGHT
    ensures |r| == |cells| && At(r, pos) == Cell(energy, At(cells, pos).target)
    ensures forall k | 0 <= k < |r| && k != FlattenIndex(pos, WIDTH) :: r[k] == cells[k]
  {
    cells[FlattenIndex(pos, WIDTH) := At(cells, pos).(energy := energy)]
  }

  /** `writer[pos] = Cell { energy: 0.0, target: pos }`. */
  function Blocked(cells: seq<Cell>, pos: Pos): (r: seq<Cell>)
    requires |cells| == WIDTH * HEIGHT
    ensures |r| == |cells| && At(r, pos) == Cell(0.0, pos)
    ensures forall k | 0 <= k < |r| && k != FlattenIndex(pos, WIDTH) :: r[k] == cells[k]
  {
    cells[FlattenIndex(pos, WIDTH) := Cell(0.0, pos)]
  }

  /** Channel `channel` after the lights loop has visited `lights` in order. */
  function ForceLights(cells: seq<Cell>, channel: nat, lights: seq<Light>): (r: seq<Cell>)
    requires Frame(cells) && channel < 3
    ensures Frame(r)
    decreases |lights|
  {
    if lights == [] then cells
    else
      var light := lights[|lights| - 1];
      Lit(ForceLights(cells, channel, lights[..|lights| - 1]), light.pos, Component(light.colour, channel))
  }

  /** A channel after the barriers loop has visited `barriers` in order. */
  function ForceBarriers(cells: seq<Cell>, barriers: seq<Pos>): (r: seq<Cell>)
    requires Frame(cells)
    ensures Frame(r)
    decreases |barriers|
  {
    if barriers == [] then cells
    else Blocked(ForceBarriers(cells, barriers[..|barriers| - 1]), barriers[|barriers| - 1])
  }

  /** Channel `channel` after both forcing loops. */
  function Forced(cells: seq<Cell>, channel: nat, lights: seq<Light>, barriers: seq<Pos>): seq<Cell>
    requires Frame(cells) && channel < 3
  {
    ForceBarriers(ForceLights(cells, channel, lights), barriers)
  }

  /** A cell that is neither a light nor a barrier is left as generated. */
  lemma {:induction false} ForcingIsLocal(cells: seq<Cell>, channel: nat, lights: seq<Light>, barriers: seq<Pos>, c: Pos)
    requires Frame(cells) && channel < 3
    requires forall j | 0 <= j < |lights| :: lights[j].pos != c
    requires forall j | 0 <= j < |barriers| :: barriers[j] != c
    ensures At(Forced(cells, channel, lights, barriers), c) == At(cells, c)
  {
    LightsElsewhere(cells, channel, lights, c);
    BarriersElsewhere(ForceLights(cells, channel, lights), barriers, c);
  }

  lemma {:induction false} LightsElsewhere(cells: seq<Cell>, channel: nat, lights: seq<Light>, c: Pos)
    requires Frame(cells) && channel < 3
    requires forall j | 0 <= j < |lights| :: lights[j].pos != c
    ensures At(ForceLights(cells, channel, lights), c) == At(cells, c)
    decreases |lights|
  {
    if lights != [] {
      var light := lights[|lights| - 1];
      LightsElsewhere(cells, channel, lights[..|lights| - 1], c);
      FlattenInjective(light.pos, c, WIDTH);
    }
  }

  lemma {:induction false} BarriersElsewhere(cells: seq<Cell>, barriers: seq<Pos>, c: Pos)
    requires Frame(cells)
    requires forall j | 0 <= j < |barriers| :: barriers[j] != c
    ensures At(ForceBarriers(cells, barriers), c) == At(cells, c)
    decreases |barriers|
  {
    if barriers != [] {
      BarriersElsewhere(cells, barriers[..|barriers| - 1], c);
      FlattenInjective(barriers[|barriers| - 1], c, WIDTH);
    }
  }

  /** Every barrier cell ends with no energy, targeting itself. */
  lemma {:induction false} BarrierIsDark(cells: seq<Cell>, barriers: seq<Pos>, j: nat)
    requires Frame(cells) && j < |barriers|
    ensures At(ForceBarriers(cells, barriers), barriers[j]) == Cell(0.0, barriers[j])
    decreases |barriers|
  {
    var last := barriers[|barriers| - 1];
    if j < |barriers| - 1 {
      BarrierIsDark(cells, barriers[..|barriers| - 1], j);
      FlattenInjective(last, barriers[j], WIDTH);
    }
  }

  /**
   * A light that no later light and no barrier overrides shines: its cell
   * takes the light's component for the channel and keeps the target the
   * generation gave it.
   */
  lemma {:induction false} LightShines(cells: seq<Cell>, channel: nat, lights: seq<Light>, barriers: seq<Pos>, j: nat)
    requires Frame(cells) && channel < 3 && j < |lights|
    requires forall k | j < k < |lights| :: lights[k].pos != lights[j].pos
    requires forall k | 0 <= k < |barriers| :: barriers[k] != lights[j].pos
    ensures var c := lights[j].pos;
      At(Forced(cells, channel, lights, barriers), c) == At(cells, c).(energy := Component(lights[j].colour, channel))
  {
    LightWins(cells, channel, lights, j);
    BarriersElsewhere(ForceLights(cells, channel, lights), barriers, lights[j].pos);
  }

  lemma {:induction false} LightWins(cells: seq<Cell>, channel: nat, lights: seq<Light>, j: nat)
    requires Frame(cells) && channel < 3 && j < |lights|
    requires forall k | j < k < |lights| :: lights[k].pos != lights[j].pos
    ensures var c := lights[j].pos;
      At(ForceLights(cells, channel, lights), c) == At(cells, c).(energy := Component(lights[j].colour, channel))
    decreases |lights|
  {
    var c := lights[j].pos;
    var init := lights[..|lights| - 1];
    if j == |lights| - 1 {
      LightsKeepTargets(cells, channel, init, c);
    } else {
      LightWins(cells, channel, init, j);
      FlattenInjective(lights[|lights| - 1].pos, c, WIDTH);
    }
  }

  /** The lights change energies only: every cell keeps its target. */
  lemma {:induction false} LightsKeepTargets(cells: seq<Cell>, channel: nat, lights: seq<Light>, c: Pos)
    requires Frame(cells) && channel < 3
    ensures At(ForceLights(cells, channel, lights), c).target == At(cells, c).target
    decreases |lights|
  {
    if lights != [] {
      LightsKeepTargets(cells, channel, lights[..|lights| - 1], c);
      FlattenInjective(lights[|lights| - 1].pos, c, WIDTH);
    }
  }

  /** With the simulation's own lights and barriers every light shines. */
  lemma SimulationLightsShine(cells: seq<Cell>, channel: nat, j: nat)
    requires Frame(cells) && channel < 3 && j < |LIGHTS|
    ensures var c := LIGHTS[j].pos;
      At(Forced(cells, channel, LIGHTS, BARRIERS), c) == At(cells, c).(energy := Component(LIGHTS[j].colour, channel))
  {
    LightsApart();
    LightShines(cells, channel, LIGHTS, BARRIERS, j);
  }

  /** `writer[c][pos].energy = energy` on one channel. */
  method LightCell(writer: Grid<Cell>, pos: Pos, energy: Energy)
    requires WellFormed(writer)
    modifies writer
    ensures WellFormed(writer) && writer.data == Lit(old(writer.data), pos, energy)
  {
    var cell := writer.Index(pos).value;
    IndexIsAt(writer, pos);
    Store(writer, pos, cell.(energy := energy));
  }

  /** `for (pos, color) in lights`: each light sets the energy of its cell in all three channels. */
  method LightsPass(writer: seq<Grid<Cell>>, lights: seq<Light>)
    requires Channels(writer)
    modifies writer
    ensures Channels(writer)
    ensures forall i | 0 <= i < 3 :: writer[i].data == ForceLights(old(writer[i].data), i, lights)
  {
    for l := 0 to |lights|
      invariant Channels(writer)
      invariant forall i | 0 <= i < 3 :: writer[i].data == ForceLights(old(writer[i].data), i, lights[..l])
    {
      var light := lights[l];
      assert lights[..l + 1][..l] == lights[..l];
      LightCell(writer[0], light.pos, light.colour.x);
      LightCell(writer[1], light.pos, light.colour.y);
      LightCell(writer[2], light.pos, light.colour.z);
    }
    assert lights[..|lights|] == lights;
  }

  /** `for &pos in barriers.iter()`: each barrier cell is reset in all three channels. */
  method BarriersPass(writer: seq<Grid<Cell>>, barriers: seq<Pos>)
    requires Channels(writer)
    modifies writer
    ensures Channels(writer)
    ensures forall i | 0 <= i < 3 :: writer[i].data == ForceBarriers(old(writer[i].data), barriers)
  {
    for b := 0 to |barriers|
      invariant Channels(writer)
      invariant forall i | 0 <= i < 3 :: writer[i].data == ForceBarriers(old(writer[i].data), barriers[..b])
    {
      var pos := barriers[b];
      assert barriers[..b + 1][..b] == barriers[..b];
      Store(writer[0], pos, Cell(0.0, pos));
      Store(writer[1], pos, Cell(0.0, pos));
      Store(writer[2], pos, Cell(0.0, pos));
    }
    assert barriers[..|barriers|] == barriers;
  }

  /////////////////////////////////////////////////////////////////////////////
  // One generation and the main loop
  /////////////////////////////////////////////////////////////////////////////

  /**
   * One turn of the main loop, up to the swap: split the buffer, generate
   * every channel, force lights and barriers, swap. The old reader grids
   * are untouched and become the writer.
   */
  method Step(buffer: DoubleBuffer<seq<Grid<Cell>>>, lights: seq<Light>, barriers: seq<Pos>, beam: Beam, blend: Blend)
    requires BufferValid(buffer)
    modifies buffer, buffer.write
    ensures BufferValid(buffer)
    ensures buffer.Reader() == old(buffer.Writer()) && buffer.Writer() == old(buffer.Reader())
    ensures forall i | 0 <= i < 3 ::
      buffer.Reader()[i].data == Forced(Generated(old(buffer.Reader()[i].data), beam, blend), i, lights, barriers)
    ensures forall i | 0 <= i < 3 :: buffer.Writer()[i].data == old(buffer.Reader()[i].data)
  {
    var reader, writer := buffer.Split();
    GenerationPass(reader, writer, beam, blend);
    LightsPass(writer, lights);
    BarriersPass(writer, barriers);
    buffer.Swap();
  }

  /** The coordinate of the `k`-th slot of the storage. */
  function Home(k: nat): Pos
    requires k < WIDTH * HEIGHT
  {
    PositionInRange(k, DIMENSIONS);
    Position(k, WIDTH)
  }

  /** The storage of the default grid. */
  function DefaultCells(): (r: seq<Cell>)
    ensures Frame(r)
  {
    seq(WIDTH * HEIGHT, k requires 0 <= k < WIDTH * HEIGHT => Cell(DEFAULT_ENERGY, Home(k)))
  }

  /** Every default cell holds `DEFAULT_ENERGY` and targets itself. */
  lemma DefaultCellsAt(c: Pos)
    ensures At(DefaultCells(), c) == Cell(DEFAULT_ENERGY, c)
  {
    PositionCovers(c, DIMENSIONS);
  }

  /** A grid whose every coordinate holds the default cell there has the default storage. */
  lemma DefaultGrid(g: Grid<Cell>)
    requires g.Valid() && g.dimensions == DIMENSIONS
    requires forall c | InRange(c, g.dimensions) :: g.Index(c) == Ok(Cell(DEFAULT_ENERGY, Coord(c.x, c.y)))
    ensures g.data == DefaultCells()
  {
    forall k | 0 <= k < WIDTH * HEIGHT
      ensures g.data[k] == DefaultCells()[k]
    {
      var c := Home(k);
      PositionFlatten(k, WIDTH);
      IndexIsAt(g, c);
    }
  }

  /** `Grid::from_fn(WIDTH, HEIGHT, |x, y| Cell { energy: DEFAULT_ENERGY, target: UVec2::new(x, y) })`. */
  method NewDefaultGrid() returns (g: Grid<Cell>)
    ensures fresh(g) && WellFormed(g) && g.data == DefaultCells()
  {
    g := new Grid.FromFn(WIDTH, HEIGHT, (x: nat, y: nat) => Cell(DEFAULT_ENERGY, Coord(x, y)));
    DefaultGrid(g);
  }

  /** Three fresh copies of `grids`: the `Clone` of `[Grid<Cell>; 3]`. */
  method CloneChannels(grids: seq<Grid<Cell>>) returns (copies: seq<Grid<Cell>>)
    requires |grids| == 3
    ensures |copies| == 3
    ensures forall i | 0 <= i < 3 :: fresh(copies[i])
    ensures forall i | 0 <= i < 3 :: copies[i].dimensions == grids[i].dimensions && copies[i].data == grids[i].data
    ensures copies[0] != copies[1] && copies[0] != copies[2] && copies[1] != copies[2]
  {
    var first := new Grid.Clone(grids[0]);
    var second := new Grid.Clone(grids[1]);
    var third := new Grid.Clone(grids[2]);
    copies := [first, second, third];
  }

  /**
   * `default_double_buffer`: a default grid, in which every cell holds
   * `DEFAULT_ENERGY` and targets itself, cloned into three channels;
   * `DoubleBuffer::from_value` gives the read slot clones of those three.
   */
  method DefaultDoubleBuffer() returns (buffer: DoubleBuffer<seq<Grid<Cell>>>)
    ensures fresh(buffer) && BufferValid(buffer)
    ensures forall i | 0 <= i < 3 :: fresh(buffer.read[i]) && fresh(buffer.write[i])
    ensures forall i | 0 <= i < 3 :: buffer.Reader()[i].data == DefaultCells() && buffer.Writer()[i].data == DefaultCells()
  {
    var defaultGrid := NewDefaultGrid();
    var first := new Grid.Clone(defaultGrid);
    var second := new Grid.Clone(defaultGrid);
    var value := [first, second, defaultGrid];
    var copies := CloneChannels(value);
    assert Channels(value) && Channels(copies) && Apart(copies, value);
    buffer := new DoubleBuffer.New(copies, value);
  }

  /** Channel `channel` after `n` generations from `cells`. */
  function Evolve(cells: seq<Cell>, channel: nat, n: nat, lights: seq<Light>, barriers: seq<Pos>, beam: Beam, blend: Blend): (r: seq<Cell>)
    requires Frame(cells) && channel < 3
    ensures Frame(r)
  {
    if n == 0 then cells
    else
      var generated := Generated(Evolve(cells, channel, n - 1, lights, barriers, beam, blend), beam, blend);
      Forced(generated, channel, lights, barriers)
  }

  /**
   * The main loop, run for `generations` turns (the program runs forever and
   * shows channel energies after each swap): the read slot then holds the
   * default channels evolved `generations` times.
   */
  method Simulate(generations: nat, beam: Beam, blend: Blend) returns (buffer: DoubleBuffer<seq<Grid<Cell>>>)
    ensures BufferValid(buffer)
    ensures forall i | 0 <= i < 3 ::
      buffer.Reader()[i].data == Evolve(DefaultCells(), i, generations, LIGHTS, BARRIERS, beam, blend)
  {
    buffer := DefaultDoubleBuffer();
    var barriers := BarrierLine();
    for n := 0 to generations
      invariant fresh(buffer) && BufferValid(buffer)
      invariant forall i | 0 <= i < 3 :: fresh(buffer.read[i]) && fresh(buffer.write[i])
      invariant forall i | 0 <= i < 3 ::
        buffer.Reader()[i].data == Evolve(DefaultCells(), i, n, LIGHTS, BARRIERS, beam, blend)
    {
      Step(buffer, LIGHTS, barriers, beam, blend);
    }
  }

  /**
   * After any generation every light cell of the simulation shows its
   * colour component, and every barrier cell is dark and targets itself.
   */
  lemma EvolvedForcing(cells: seq<Cell>, channel: nat, n: nat, beam: Beam, blend: Blend)
    requires Frame(cells) && channel < 3 && n > 0
    ensures var r := Evolve(cells, channel, n, LIGHTS, BARRIERS, beam, blend);
      (forall j | 0 <= j < |LIGHTS| :: At(r, LIGHTS[j].pos).energy == Component(LIGHTS[j].colour, channel)) &&
      (forall k | 0 <= k < |BARRIERS| :: At(r, BARRIERS[k]) == Cell(0.0, BARRIERS[k]))
  {
    var generated := Generated(Evolve(cells, channel, n - 1, LIGHTS, BARRIERS, beam, blend), beam, blend);
    forall j | 0 <= j < |LIGHTS|
      ensures At(Forced(generated, channel, LIGHTS, BARRIERS), LIGHTS[j].pos).energy == Component(LIGHTS[j].colour, channel)
    {
      SimulationLightsShine(generated, channel, j);
    }
    forall k | 0 <= k < |BARRIERS|
      ensures At(Forced(generated, channel, LIGHTS, BARRIERS), BARRIERS[k]) == Cell(0.0, BARRIERS[k])
    {
      BarrierIsDark(ForceLights(generated, channel, LIGHTS), BARRIERS, k);
    }
  }
}
