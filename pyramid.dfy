/** The layout `createObjects` gives the stack of cups: level 1 at the
    bottom holds 8 cups, each level above one fewer, centred on x = 0. */
module Pyramid {
  import opened Types

  const CUP_RADIUS_TOP: real := 0.8
  const CUP_RADIUS_BOTTOM: real := 0.6
  const CUP_HEIGHT: real := 1.2
  const CUP_MASS: real := 5.0
  const CUP_SEGMENTS: nat := 16
  const CUP_SPACING: real := CUP_RADIUS_TOP * 2.0 * 1.05
  const TOTAL_LEVELS: int := 8
  const INITIAL_CUPS: int := 8
  const BASE_COLORS: seq<int> := [0xfdd835, 0xe53935, 0x1e88e5, 0x43a047]

  /** Where one cup is placed and the colour of its material. */
  datatype Placement = Placement(position: Vec3, color: int)

  function CupsOn(level: int): int {
    INITIAL_CUPS - (level - 1)
  }

  function LevelColor(level: int): int
    requires level >= 1
  {
    BASE_COLORS[(level - 1) % |BASE_COLORS|]
  }

  /** The position of cup `i` (counted from the left) on `level`. */
  function CupPosition(level: int, i: int): Vec3 {
    var startX := -(((CupsOn(level) - 1) as real) * CUP_SPACING) / 2.0;
    Vec3(startX + (i as real) * CUP_SPACING, ((level - 1) as real) * CUP_HEIGHT + CUP_HEIGHT / 2.0, 0.0)
  }

  function Row(level: int): (r: seq<Placement>)
    requires 1 <= level <= TOTAL_LEVELS
    ensures |r| == CupsOn(level)
    ensures forall i :: 0 <= i < |r| ==> r[i].position.y == r[0].position.y && r[i].position.z == 0.0
  {
    seq(CupsOn(level), i => Placement(CupPosition(level, i), LevelColor(level)))
  }

  /** The cups of levels 1 to `levels`, in creation order. */
  function Rows(levels: int): (r: seq<Placement>)
    requires 0 <= levels <= TOTAL_LEVELS
    ensures forall k :: 0 <= k < |r| ==> r[k].position.z == 0.0 && r[k].color in BASE_COLORS
  {
    if levels == 0 then [] else Rows(levels - 1) + Row(levels)
  }

  function Layout(): (r: seq<Placement>)
    ensures |r| == 36
  {
    RowsCount(TOTAL_LEVELS);
    Rows(TOTAL_LEVELS)
  }

  /** Level L holds 9 - L cups; the first `levels` levels hold
      levels * (17 - levels) / 2 cups together. */
  lemma {:induction false} RowsCount(levels: int)
    requires 0 <= levels <= TOTAL_LEVELS
    ensures 2 * |Rows(levels)| == levels * (17 - levels)
    ensures levels >= 1 ==> |Row(levels)| == 9 - levels
  {
    if levels > 0 {
      RowsCount(levels - 1);
    }
  }

  /** The stack holds 36 cups. */
  lemma LayoutCount()
    ensures |Layout()| == 36
  {
    RowsCount(TOTAL_LEVELS);
  }

  /** The four base colours repeat level by level. */
  lemma RowColor(level: int, i: int)
    requires 1 <= level <= TOTAL_LEVELS && 0 <= i < CupsOn(level)
    ensures Row(level)[i].color == BASE_COLORS[(level - 1) % 4]
    ensures level + 4 <= TOTAL_LEVELS ==> Row(level + 4)[0].color == Row(level)[i].color
  {
  }

  /** Every level is mirror-symmetric about x = 0, lies in the plane z = 0,
      and sits one cup height above the level below it. */
  lemma RowSymmetric(level: int, i: int)
    requires 1 <= level <= TOTAL_LEVELS && 0 <= i < CupsOn(level)
    ensures Row(level)[i].position.x + Row(level)[CupsOn(level) - 1 - i].position.x == 0.0
    ensures Row(level)[i].position.y == Row(level)[CupsOn(level) - 1 - i].position.y
    ensures Row(level)[i].position.z == 0.0
    ensures level > 1 ==> Row(level)[i].position.y == Row(level - 1)[0].position.y + CUP_HEIGHT
  {
    var n := CupsOn(level);
    var a, b, m := i as real, (n - 1 - i) as real, (n - 1) as real;
    assert CUP_SPACING == 1.68;
    assert a * 1.68 + b * 1.68 == m * 1.68;
    assert Row(level)[i].position.x == -(m * 1.68) / 2.0 + a * 1.68;
    assert Row(level)[n - 1 - i].position.x == -(m * 1.68) / 2.0 + b * 1.68;
  }

  /** The loop in `createObjects` computes the placements of `Row`. */
  lemma PlacementFormula(level: int, i: int, numCups: int, color: int, yOffset: real, startX: real)
    requires 1 <= level <= TOTAL_LEVELS && 0 <= i < numCups && numCups == CupsOn(level)
    requires color == BASE_COLORS[(level - 1) % |BASE_COLORS|]
    requires yOffset == ((level - 1) as real) * CUP_HEIGHT
    requires startX == -(((numCups - 1) as real) * CUP_SPACING) / 2.0
    ensures Row(level)[i] == Placement(Vec3(startX + (i as real) * CUP_SPACING, yOffset + CUP_HEIGHT / 2.0, 0.0), color)
  {
  }

  /** Each level's cups follow the levels below it in the whole layout. */
  lemma {:induction false} RowInLayout(levels: int, level: int, i: int)
    requires 1 <= level <= levels <= TOTAL_LEVELS && 0 <= i < CupsOn(level)
    ensures 2 * |Rows(level - 1)| + 2 * i < 2 * |Rows(levels)|
    ensures Rows(levels)[|Rows(level - 1)| + i] == Row(level)[i]
  {
    if level < levels {
      RowInLayout(levels - 1, level, i);
    } else {
      assert Rows(levels) == Rows(level - 1) + Row(level);
    }
  }
}
