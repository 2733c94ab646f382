/*
 * The ralloc size-class table (`ext/ralloc/src/SizeClass.hpp`): the constant jemalloc-style
 * `SIZE_CLASSES` rows, the block size each row denotes, and the `SizeClass` lookups.
 */
module SizeClasses {
  /** `2^n`. */
  function Pow2(n: nat): (r: nat)
    ensures r >= 1
  {
    if n == 0 then 1 else 2 * Pow2(n - 1)
  }

  /** One `SC(index, lg_grp, lg_delta, ndelta, psz, bin, pgs, lg_delta_lookup)` row; a
      `lg_delta_lookup` of `no` is `None`. */
  datatype SizeClassRow = SizeClassRow(
    index: nat, lgGrp: nat, lgDelta: nat, ndelta: nat,
    psz: bool, bin: bool, pgs: nat, lgDeltaLookup: Option<nat>)

  datatype Option<T> = None | Some(value: T)

  const NUM_CLASSES: nat := 235

  /** The three parameters that fix a block size. */
  datatype Shape = Shape(lgGrp: nat, lgDelta: nat, ndelta: nat)

  /** The shape of the table: rows 0-3 are one group with `lg_grp = lg_delta = 3` and
      `ndelta = 0..3`; from row 4 on, rows come in groups of four with `ndelta = 1..4`,
      `lg_delta = lg_grp - 2`, and `lg_grp` one larger in each group, starting at 5. */
  function ShapeOf(i: nat): Shape
  {
    if i < 4 then Shape(3, 3, i)
    else Shape((i - 4) / 4 + 5, (i - 4) / 4 + 3, (i - 4) % 4 + 1)
  }

  predicate RowFollowsShape(r: SizeClassRow, i: nat)
  {
    r.index == i && Shape(r.lgGrp, r.lgDelta, r.ndelta) == ShapeOf(i)
  }

  function Rows0(i: nat): SizeClassRow
    requires 0 <= i < 20
  {
    match i
    case 0   => SizeClassRow(  0,  3,  3, 0, false, true , 1, Some(3))
    case 1   => SizeClassRow(  1,  3,  3, 1, false, true , 1, Some(3))
    case 2   => SizeClassRow(  2,  3,  3, 2, false, true , 3, Some(3))
    case 3   => SizeClassRow(  3,  3,  3, 3, false, true , 1, Some(3))
    case 4   => SizeClassRow(  4,  5,  3, 1, false, true , 5, Some(3))
    case 5   => SizeClassRow(  5,  5,  3, 2, false, true , 3, Some(3))
    case 6   => SizeClassRow(  6,  5,  3, 3, false, true , 7, Some(3))
    case 7   => SizeClassRow(  7,  5,  3, 4, false, true , 1, Some(3))
    case 8   => SizeClassRow(  8,  6,  4, 1, false, true , 5, Some(4))
    case 9   => SizeClassRow(  9,  6,  4, 2, false, true , 3, Some(4))
    case 10  => SizeClassRow( 10,  6,  4, 3, false, true , 7, Some(4))
    case 11  => SizeClassRow( 11,  6,  4, 4, false, true , 1, Some(4))
    case 12  => SizeClassRow( 12,  7,  5, 1, false, true , 5, Some(5))
    case 13  => SizeClassRow( 13,  7,  5, 2, false, true , 3, Some(5))
    case 14  => SizeClassRow( 14,  7,  5, 3, false, true , 7, Some(5))
    case 15  => SizeClassRow( 15,  7,  5, 4, false, true , 1, Some(5))
    case 16  => SizeClassRow( 16,  8,  6, 1, false, true , 5, Some(6))
    case 17  => SizeClassRow( 17,  8,  6, 2, false, true , 3, Some(6))
    case 18  => SizeClassRow( 18,  8,  6, 3, false, true , 7, Some(6))
    case _   => SizeClassRow( 19,  8,  6, 4, false, true , 1, Some(6))
  }

  lemma Rows0FollowShape(i: nat)
    requires 0 <= i < 20
    ensures RowFollowsShape(Rows0(i), i)
  {
  }

  function Rows20(i: nat): SizeClassRow
    requires 20 <= i < 40
  {
    match i
    case 20  => SizeClassRow( 20,  9,  7, 1, false, true , 5, Some(7))
    case 21  => SizeClassRow( 21,  9,  7, 2, false, true , 3, Some(7))
    case 22  => SizeClassRow( 22,  9,  7, 3, false, true , 7, Some(7))
    case 23  => SizeClassRow( 23,  9,  7, 4, false, true , 1, Some(7))
    case 24  => SizeClassRow( 24, 10,  8, 1, false, true , 5, Some(8))
    case 25  => SizeClassRow( 25, 10,  8, 2, false, true , 3, Some(8))
    case 26  => SizeClassRow( 26, 10,  8, 3, false, true , 7, Some(8))
    case 27  => SizeClassRow( 27, 10,  8, 4, false, true , 1, Some(8))
    case 28  => SizeClassRow( 28, 11,  9, 1, false, true , 5, Some(9))
    case 29  => SizeClassRow( 29, 11,  9, 2, false, true , 3, Some(9))
    case 30  => SizeClassRow( 30, 11,  9, 3, false, true , 7, Some(9))
    case 31  => SizeClassRow( 31, 11,  9, 4, true , true , 1, Some(9))
    case 32  => SizeClassRow( 32, 12, 10, 1, false, true , 5, None)
    case 33  => SizeClassRow( 33, 12, 10, 2, false, true , 3, None)
    case 34  => SizeClassRow( 34, 12, 10, 3, false, true , 7, None)
    case 35  => SizeClassRow( 35, 12, 10, 4, true , true , 2, None)
    case 36  => SizeClassRow( 36, 13, 11, 1, false, true , 5, None)
    case 37  => SizeClassRow( 37, 13, 11, 2, true , true , 3, None)
    case 38  => SizeClassRow( 38, 13, 11, 3, false, true , 7, None)
    case _   => SizeClassRow( 39, 13, 11, 4, true , false, 0, None)
  }

  lemma Rows20FollowShape(i: nat)
    requires 20 <= i < 40
    ensures RowFollowsShape(Rows20(i), i)
  {
  }

  function Rows40(i: nat): SizeClassRow
    requires 40 <= i < 60
  {
    match i
    case 40  => SizeClassRow( 40, 14, 12, 1, true , false, 0, None)
    case 41  => SizeClassRow( 41, 14, 12, 2, true , false, 0, None)
    case 42  => SizeClassRow( 42, 14, 12, 3, true , false, 0, None)
    case 43  => SizeClassRow( 43, 14, 12, 4, true , false, 0, None)
    case 44  => SizeClassRow( 44, 15, 13, 1, true , false, 0, None)
    case 45  => SizeClassRow( 45, 15, 13, 2, true , false, 0, None)
    case 46  => SizeClassRow( 46, 15, 13, 3, true , false, 0, None)
    case 47  => SizeClassRow( 47, 15, 13, 4, true , false, 0, None)
    case 48  => SizeClassRow( 48, 16, 14, 1, true , false, 0, None)
    case 49  => SizeClassRow( 49, 16, 14, 2, true , false, 0, None)
    case 50  => SizeClassRow( 50, 16, 14, 3, true , false, 0, None)
    case 51  => SizeClassRow( 51, 16, 14, 4, true , false, 0, None)
    case 52  => SizeClassRow( 52, 17, 15, 1, true , false, 0, None)
    case 53  => SizeClassRow( 53, 17, 15, 2, true , false, 0, None)
    case 54  => SizeClassRow( 54, 17, 15, 3, true , false, 0, None)
    case 55  => SizeClassRow( 55, 17, 15, 4, true , false, 0, None)
    case 56  => SizeClassRow( 56, 18, 16, 1, true , false, 0, None)
    case 57  => SizeClassRow( 57, 18, 16, 2, true , false, 0, None)
    case 58  => SizeClassRow( 58, 18, 16, 3, true , false, 0, None)
    case _   => SizeClassRow( 59, 18, 16, 4, true , false, 0, None)
  }

  lemma Rows40FollowShape(i: nat)
    requires 40 <= i < 60
    ensures RowFollowsShape(Rows40(i), i)
  {
  }

  function Rows60(i: nat): SizeClassRow
    requires 60 <= i < 80
  {
    match i
    case 60  => SizeClassRow( 60, 19, 17, 1, true , false, 0, None)
    case 61  => SizeClassRow( 61, 19, 17, 2, true , false, 0, None)
    case 62  => SizeClassRow( 62, 19, 17, 3, true , false, 0, None)
    case 63  => SizeClassRow( 63, 19, 17, 4, true , false, 0, None)
    case 64  => SizeClassRow( 64, 20, 18, 1, true , false, 0, None)
    case 65  => SizeClassRow( 65, 20, 18, 2, true , false, 0, None)
    case 66  => SizeClassRow( 66, 20, 18, 3, true , false, 0, None)
    case 67  => SizeClassRow( 67, 20, 18, 4, true , false, 0, None)
    case 68  => SizeClassRow( 68, 21, 19, 1, true , false, 0, None)
    case 69  => SizeClassRow( 69, 21, 19, 2, true , false, 0, None)
    case 70  => SizeClassRow( 70, 21, 19, 3, true , false, 0, None)
    case 71  => SizeClassRow( 71, 21, 19, 4, true , false, 0, None)
    case 72  => SizeClassRow( 72, 22, 20, 1, true , false, 0, None)
    case 73  => SizeClassRow( 73, 22, 20, 2, true , false, 0, None)
    case 74  => SizeClassRow( 74, 22, 20, 3, true , false, 0, None)
    case 75  => SizeClassRow( 75, 22, 20, 4, true , false, 0, None)
    case 76  => SizeClassRow( 76, 23, 21, 1, true , false, 0, None)
    case 77  => SizeClassRow( 77, 23, 21, 2, true , false, 0, None)
    case 78  => SizeClassRow( 78, 23, 21, 3, true , false, 0, None)
    case _   => SizeClassRow( 79, 23, 21, 4, true , false, 0, None)
  }

  lemma Rows60FollowShape(i: nat)
    requires 60 <= i < 80
    ensures RowFollowsShape(Rows60(i), i)
  {
  }

  function Rows80(i: nat): SizeClassRow
    requires 80 <= i < 100
  {
    match i
    case 80  => SizeClassRow( 80, 24, 22, 1, true , false, 0, None)
    case 81  => SizeClassRow( 81, 24, 22, 2, true , false, 0, None)
    case 82  => SizeClassRow( 82, 24, 22, 3, true , false, 0, None)
    case 83  => SizeClassRow( 83, 24, 22, 4, true , false, 0, None)
    case 84  => SizeClassRow( 84, 25, 23, 1, true , false, 0, None)
    case 85  => SizeClassRow( 85, 25, 23, 2, true , false, 0, None)
    case 86  => SizeClassRow( 86, 25, 23, 3, true , false, 0, None)
    case 87  => SizeClassRow( 87, 25, 23, 4, true , false, 0, None)
    case 88  => SizeClassRow( 88, 26, 24, 1, true , false, 0, None)
    case 89  => SizeClassRow( 89, 26, 24, 2, true , false, 0, None)
    case 90  => SizeClassRow( 90, 26, 24, 3, true , false, 0, None)
    case 91  => SizeClassRow( 91, 26, 24, 4, true , false, 0, None)
    case 92  => SizeClassRow( 92, 27, 25, 1, true , false, 0, None)
    case 93  => SizeClassRow( 93, 27, 25, 2, true , false, 0, None)
    case 94  => SizeClassRow( 94, 27, 25, 3, true , false, 0, None)
    case 95  => SizeClassRow( 95, 27, 25, 4, true , false, 0, None)
    case 96  => SizeClassRow( 96, 28, 26, 1, true , false, 0, None)
    case 97  => SizeClassRow( 97, 28, 26, 2, true , false, 0, None)
    case 98  => SizeClassRow( 98, 28, 26, 3, true , false, 0, None)
    case _   => SizeClassRow( 99, 28, 26, 4, true , false, 0, None)
  }

  lemma Rows80FollowShape(i: nat)
    requires 80 <= i < 100
    ensures RowFollowsShape(Rows80(i), i)
  {
  }

  function Rows100(i: nat): SizeClassRow
    requires 100 <= i < 120
  {
    match i
    case 100 => SizeClassRow(100, 29, 27, 1, true , false, 0, None)
    case 101 => SizeClassRow(101, 29, 27, 2, true , false, 0, None)
    case 102 => SizeClassRow(102, 29, 27, 3, true , false, 0, None)
    case 103 => SizeClassRow(103, 29, 27, 4, true , false, 0, None)
    case 104 => SizeClassRow(104, 30, 28, 1, true , false, 0, None)
    case 105 => SizeClassRow(105, 30, 28, 2, true , false, 0, None)
    case 106 => SizeClassRow(106, 30, 28, 3, true , false, 0, None)
    case 107 => SizeClassRow(107, 30, 28, 4, true , false, 0, None)
    case 108 => SizeClassRow(108, 31, 29, 1, true , false, 0, None)
    case 109 => SizeClassRow(109, 31, 29, 2, true , false, 0, None)
    case 110 => SizeClassRow(110, 31, 29, 3, true , false, 0, None)
    case 111 => SizeClassRow(111, 31, 29, 4, true , false, 0, None)
    case 112 => SizeClassRow(112, 32, 30, 1, true , false, 0, None)
    case 113 => SizeClassRow(113, 32, 30, 2, true , false, 0, None)
    case 114 => SizeClassRow(114, 32, 30, 3, true , false, 0, None)
    case 115 => SizeClassRow(115, 32, 30, 4, true , false, 0, None)
    case 116 => SizeClassRow(116, 33, 31, 1, true , false, 0, None)
    case 117 => SizeClassRow(117, 33, 31, 2, true , false, 0, None)
    case 118 => SizeClassRow(118, 33, 31, 3, true , false, 0, None)
    case _   => SizeClassRow(119, 33, 31, 4, true , false, 0, None)
  }

  lemma Rows100FollowShape(i: nat)
    requires 100 <= i < 120
    ensures RowFollowsShape(Rows100(i), i)
  {
  }

  function Rows120(i: nat): SizeClassRow
    requires 120 <= i < 140
  {
    match i
    case 120 => SizeClassRow(120, 34, 32, 1, true , false, 0, None)
    case 121 => SizeClassRow(121, 34, 32, 2, true , false, 0, None)
    case 122 => SizeClassRow(122, 34, 32, 3, true , false, 0, None)
    case 123 => SizeClassRow(123, 34, 32, 4, true , false, 0, None)
    case 124 => SizeClassRow(124, 35, 33, 1, true , false, 0, None)
    case 125 => SizeClassRow(125, 35, 33, 2, true , false, 0, None)
    case 126 => SizeClassRow(126, 35, 33, 3, true , false, 0, None)
    case 127 => SizeClassRow(127, 35, 33, 4, true , false, 0, None)
    case 128 => SizeClassRow(128, 36, 34, 1, true , false, 0, None)
    case 129 => SizeClassRow(129, 36, 34, 2, true , false, 0, None)
    case 130 => SizeClassRow(130, 36, 34, 3, true , false, 0, None)
    case 131 => SizeClassRow(131, 36, 34, 4, true , false, 0, None)
    case 132 => SizeClassRow(132, 37, 35, 1, true , false, 0, None)
    case 133 => SizeClassRow(133, 37, 35, 2, true , false, 0, None)
    case 134 => SizeClassRow(134, 37, 35, 3, true , false, 0, None)
    case 135 => SizeClassRow(135, 37, 35, 4, true , false, 0, None)
    case 136 => SizeClassRow(136, 38, 36, 1, true , false, 0, None)
    case 137 => SizeClassRow(137, 38, 36, 2, true , false, 0, None)
    case 138 => SizeClassRow(138, 38, 36, 3, true , false, 0, None)
    case _   => SizeClassRow(139, 38, 36, 4, true , false, 0, None)
  }

  lemma Rows120FollowShape(i: nat)
    requires 120 <= i < 140
    ensures RowFollowsShape(Rows120(i), i)
  {
  }

  function Rows140(i: nat): SizeClassRow
    requires 140 <= i < 160
  {
    match i
    case 140 => SizeClassRow(140, 39, 37, 1, true , false, 0, None)
    case 141 => SizeClassRow(141, 39, 37, 2, true , false, 0, None)
    case 142 => SizeClassRow(142, 39, 37, 3, true , false, 0, None)
    case 143 => SizeClassRow(143, 39, 37, 4, true , false, 0, None)
    case 144 => SizeClassRow(144, 40, 38, 1, true , false, 0, None)
    case 145 => SizeClassRow(145, 40, 38, 2, true , false, 0, None)
    case 146 => SizeClassRow(146, 40, 38, 3, true , false, 0, None)
    case 147 => SizeClassRow(147, 40, 38, 4, true , false, 0, None)
    case 148 => SizeClassRow(148, 41, 39, 1, true , false, 0, None)
    case 149 => SizeClassRow(149, 41, 39, 2, true , false, 0, None)
    case 150 => SizeClassRow(150, 41, 39, 3, true , false, 0, None)
    case 151 => SizeClassRow(151, 41, 39, 4, true , false, 0, None)
    case 152 => SizeClassRow(152, 42, 40, 1, true , false, 0, None)
    case 153 => SizeClassRow(153, 42, 40, 2, true , false, 0, None)
    case 154 => SizeClassRow(154, 42, 40, 3, true , false, 0, None)
    case 155 => SizeClassRow(155, 42, 40, 4, true , false, 0, None)
    case 156 => SizeClassRow(156, 43, 41, 1, true , false, 0, None)
    case 157 => SizeClassRow(157, 43, 41, 2, true , false, 0, None)
    case 158 => SizeClassRow(158, 43, 41, 3, true , false, 0, None)
    case _   => SizeClassRow(159, 43, 41, 4, true , false, 0, None)
  }

  lemma Rows140FollowShape(i: nat)
    requires 140 <= i < 160
    ensures RowFollowsShape(Rows140(i), i)
  {
  }

  function Rows160(i: nat): SizeClassRow
    requires 160 <= i < 180
  {
    match i
    case 160 => SizeClassRow(160, 44, 42, 1, true , false, 0, None)
    case 161 => SizeClassRow(161, 44, 42, 2, true , false, 0, None)
    case 162 => SizeClassRow(162, 44, 42, 3, true , false, 0, None)
    case 163 => SizeClassRow(163, 44, 42, 4, true , false, 0, None)
    case 164 => SizeClassRow(164, 45, 43, 1, true , false, 0, None)
    case 165 => SizeClassRow(165, 45, 43, 2, true , false, 0, None)
    case 166 => SizeClassRow(166, 45, 43, 3, true , false, 0, None)
    case 167 => SizeClassRow(167, 45, 43, 4, true , false, 0, None)
    case 168 => SizeClassRow(168, 46, 44, 1, true , false, 0, None)
    case 169 => SizeClassRow(169, 46, 44, 2, true , false, 0, None)
    case 170 => SizeClassRow(170, 46, 44, 3, true , false, 0, None)
    case 171 => SizeClassRow(171, 46, 44, 4, true , false, 0, None)
    case 172 => SizeClassRow(172, 47, 45, 1, true , false, 0, None)
    case 173 => SizeClassRow(173, 47, 45, 2, true , false, 0, None)
    case 174 => SizeClassRow(174, 47, 45, 3, true , false, 0, None)
    case 175 => SizeClassRow(175, 47, 45, 4, true , false, 0, None)
    case 176 => SizeClassRow(176, 48, 46, 1, true , false, 0, None)
    case 177 => SizeClassRow(177, 48, 46, 2, true , false, 0, None)
    case 178 => SizeClassRow(178, 48, 46, 3, true , false, 0, None)
    case _   => SizeClassRow(179, 48, 46, 4, true , false, 0, None)
  }

  lemma Rows160FollowShape(i: nat)
    requires 160 <= i < 180
    ensures RowFollowsShape(Rows160(i), i)
  {
  }

  function Rows180(i: nat): SizeClassRow
    requires 180 <= i < 200
  {
    match i
    case 180 => SizeClassRow(180, 49, 47, 1, true , false, 0, None)
    case 181 => SizeClassRow(181, 49, 47, 2, true , false, 0, None)
    case 182 => SizeClassRow(182, 49, 47, 3, true , false, 0, None)
    case 183 => SizeClassRow(183, 49, 47, 4, true , false, 0, None)
    case 184 => SizeClassRow(184, 50, 48, 1, true , false, 0, None)
    case 185 => SizeClassRow(185, 50, 48, 2, true , false, 0, None)
    case 186 => SizeClassRow(186, 50, 48, 3, true , false, 0, None)
    case 187 => SizeClassRow(187, 50, 48, 4, true , false, 0, None)
    case 188 => SizeClassRow(188, 51, 49, 1, true , false, 0, None)
    case 189 => SizeClassRow(189, 51, 49, 2, true , false, 0, None)
    case 190 => SizeClassRow(190, 51, 49, 3, true , false, 0, None)
    case 191 => SizeClassRow(191, 51, 49, 4, true , false, 0, None)
    case 192 => SizeClassRow(192, 52, 50, 1, true , false, 0, None)
    case 193 => SizeClassRow(193, 52, 50, 2, true , false, 0, None)
    case 194 => SizeClassRow(194, 52, 50, 3, true , false, 0, None)
    case 195 => SizeClassRow(195, 52, 50, 4, true , false, 0, None)
    case 196 => SizeClassRow(196, 53, 51, 1, true , false, 0, None)
    case 197 => SizeClassRow(197, 53, 51, 2, true , false, 0, None)
    case 198 => SizeClassRow(198, 53, 51, 3, true , false, 0, None)
    case _   => SizeClassRow(199, 53, 51, 4, true , false, 0, None)
  }

  lemma Rows180FollowShape(i: nat)
    requires 180 <= i < 200
    ensures RowFollowsShape(Rows180(i), i)
  {
  }

  function Rows200(i: nat): SizeClassRow
    requires 200 <= i < 220
  {
    match i
    case 200 => SizeClassRow(200, 54, 52, 1, true , false, 0, None)
    case 201 => SizeClassRow(201, 54, 52, 2, true , false, 0, None)
    case 202 => SizeClassRow(202, 54, 52, 3, true , false, 0, None)
    case 203 => SizeClassRow(203, 54, 52, 4, true , false, 0, None)
    case 204 => SizeClassRow(204, 55, 53, 1, true , false, 0, None)
    case 205 => SizeClassRow(205, 55, 53, 2, true , false, 0, None)
    case 206 => SizeClassRow(206, 55, 53, 3, true , false, 0, None)
    case 207 => SizeClassRow(207, 55, 53, 4, true , false, 0, None)
    case 208 => SizeClassRow(208, 56, 54, 1, true , false, 0, None)
    case 209 => SizeClassRow(209, 56, 54, 2, true , false, 0, None)
    case 210 => SizeClassRow(210, 56, 54, 3, true , false, 0, None)
    case 211 => SizeClassRow(211, 56, 54, 4, true , false, 0, None)
    case 212 => SizeClassRow(212, 57, 55, 1, true , false, 0, None)
    case 213 => SizeClassRow(213, 57, 55, 2, true , false, 0, None)
    case 214 => SizeClassRow(214, 57, 55, 3, true , false, 0, None)
    case 215 => SizeClassRow(215, 57, 55, 4, true , false, 0, None)
    case 216 => SizeClassRow(216, 58, 56, 1, true , false, 0, None)
    case 217 => SizeClassRow(217, 58, 56, 2, true , false, 0, None)
    case 218 => SizeClassRow(218, 58, 56, 3, true , false, 0, None)
    case _   => SizeClassRow(219, 58, 56, 4, true , false, 0, None)
  }

  lemma Rows200FollowShape(i: nat)
    requires 200 <= i < 220
    ensures RowFollowsShape(Rows200(i), i)
  {
  }

  function Rows220(i: nat): SizeClassRow
    requires 220 <= i < 235
  {
    match i
    case 220 => SizeClassRow(220, 59, 57, 1, true , false, 0, None)
    case 221 => SizeClassRow(221, 59, 57, 2, true , false, 0, None)
    case 222 => SizeClassRow(222, 59, 57, 3, true , false, 0, None)
    case 223 => SizeClassRow(223, 59, 57, 4, true , false, 0, None)
    case 224 => SizeClassRow(224, 60, 58, 1, true , false, 0, None)
    case 225 => SizeClassRow(225, 60, 58, 2, true , false, 0, None)
    case 226 => SizeClassRow(226, 60, 58, 3, true , false, 0, None)
    case 227 => SizeClassRow(227, 60, 58, 4, true , false, 0, None)
    case 228 => SizeClassRow(228, 61, 59, 1, true , false, 0, None)
    case 229 => SizeClassRow(229, 61, 59, 2, true , false, 0, None)
    case 230 => SizeClassRow(230, 61, 59, 3, true , false, 0, None)
    case 231 => SizeClassRow(231, 61, 59, 4, true , false, 0, None)
    case 232 => SizeClassRow(232, 62, 60, 1, true , false, 0, None)
    case 233 => SizeClassRow(233, 62, 60, 2, true , false, 0, None)
    case _   => SizeClassRow(234, 62, 60, 3, true , false, 0, None)
  }

  lemma Rows220FollowShape(i: nat)
    requires 220 <= i < 235
    ensures RowFollowsShape(Rows220(i), i)
  {
  }

  /** Row `i` of `SIZE_CLASSES`. */
  function Row(i: nat): (r: SizeClassRow)
    requires i < NUM_CLASSES
    ensures RowFollowsShape(r, i)
  {
    if i < 20 then Rows0FollowShape(i); Rows0(i)
    else if i < 40 then Rows20FollowShape(i); Rows20(i)
    else if i < 60 then Rows40FollowShape(i); Rows40(i)
    else if i < 80 then Rows60FollowShape(i); Rows60(i)
    else if i < 100 then Rows80FollowShape(i); Rows80(i)
    else if i < 120 then Rows100FollowShape(i); Rows100(i)
    else if i < 140 then Rows120FollowShape(i); Rows120(i)
    else if i < 160 then Rows140FollowShape(i); Rows140(i)
    else if i < 180 then Rows160FollowShape(i); Rows160(i)
    else if i < 200 then Rows180FollowShape(i); Rows180(i)
    else if i < 220 then Rows200FollowShape(i); Rows200(i)
    else Rows220FollowShape(i); Rows220(i)
  }


  /** `block_size = (1 << lg_grp) + (ndelta << lg_delta)`. */
  function ShapeSize(sh: Shape): nat
  {
    Pow2(sh.lgGrp) + sh.ndelta * Pow2(sh.lgDelta)
  }

  function BlockSizeOf(r: SizeClassRow): nat
  {
    ShapeSize(Shape(r.lgGrp, r.lgDelta, r.ndelta))
  }

  /** The block size of class `i`, from the shape of the table. */
  function BlockSize(i: nat): nat
  {
    ShapeSize(ShapeOf(i))
  }

  /** Every row of the table has the block size its shape gives. */
  lemma TableBlockSize(i: nat)
    requires i < NUM_CLASSES
    ensures BlockSizeOf(Row(i)) == BlockSize(i)
  {
  }

  lemma Pow2Split(n: nat)
    requires n >= 2
    ensures Pow2(n) == 4 * Pow2(n - 2)
  {
  }

  /** From row 4 on, a class's block size is `(4 + ndelta) * 2^lg_delta`. */
  lemma GroupBlockSize(i: nat)
    requires i >= 4
    ensures BlockSize(i) == (4 + ShapeOf(i).ndelta) * Pow2(ShapeOf(i).lgDelta)
  {
    Pow2Split(ShapeOf(i).lgGrp);
  }

  /** The first four classes are 8, 16, 24 and 32 bytes. */
  lemma FirstClassesStepByEight(i: nat)
    requires i < 4
    ensures BlockSize(i) == 8 * (i + 1)
  {
    assert Pow2(3) == 8;
  }

  /** Each group of four ends exactly at the next power of two. */
  lemma GroupEndsAtPowerOfTwo(i: nat)
    requires i >= 4 && ShapeOf(i).ndelta == 4
    ensures BlockSize(i) == Pow2(ShapeOf(i).lgGrp + 1)
  {
    GroupBlockSize(i);
    Pow2Split(ShapeOf(i).lgGrp);
  }

  /** Within a group `ndelta` steps up by one; after its fourth row the next group starts. */
  lemma ShapeNext(i: nat)
    requires i >= 4
    ensures ShapeOf(i).ndelta < 4 ==> ShapeOf(i + 1) == ShapeOf(i).(ndelta := ShapeOf(i).ndelta + 1)
    ensures ShapeOf(i).ndelta == 4 ==>
      ShapeOf(i + 1) == Shape(ShapeOf(i).lgGrp + 1, ShapeOf(i).lgDelta + 1, 1)
  {
    var q, m := (i - 4) / 4, (i - 4) % 4;
    assert i - 4 == 4 * q + m;
    if m < 3 {
      assert (i + 1 - 4) / 4 == q && (i + 1 - 4) % 4 == m + 1;
    } else {
      assert (i + 1 - 4) / 4 == q + 1 && (i + 1 - 4) % 4 == 0;
    }
  }

  /** A shape with `lg_delta = lg_grp - 2` has block size `(4 + ndelta) * 2^lg_delta`. */
  lemma GroupShapeSize(sh: Shape)
    requires sh.lgGrp == sh.lgDelta + 2
    ensures ShapeSize(sh) == (4 + sh.ndelta) * Pow2(sh.lgDelta)
  {
    Pow2Split(sh.lgGrp);
  }

  lemma StepWithinGroup(i: nat)
    requires i >= 4 && ShapeOf(i).ndelta < 4
    ensures BlockSize(i) < BlockSize(i + 1)
  {
    ShapeNext(i);
    var a, b := ShapeOf(i), ShapeOf(i + 1);
    GroupShapeSize(a);
    GroupShapeSize(b);
    MulStep(4 + a.ndelta, Pow2(a.lgDelta));
  }

  lemma StepAcrossGroups(i: nat)
    requires i >= 4 && ShapeOf(i).ndelta == 4
    ensures BlockSize(i) < BlockSize(i + 1)
  {
    ShapeNext(i);
    var a, b := ShapeOf(i), ShapeOf(i + 1);
    GroupShapeSize(a);
    GroupShapeSize(b);
    assert Pow2(b.lgDelta) == 2 * Pow2(a.lgDelta);
  }

  lemma MulStep(k: nat, p: nat)
    requires p >= 1
    ensures k * p < (k + 1) * p
  {
  }

  lemma BlockSizeStep(i: nat)
    ensures BlockSize(i) < BlockSize(i + 1)
  {
    if i < 3 {
      FirstClassesStepByEight(i);
      FirstClassesStepByEight(i + 1);
    } else if i == 3 {
      FirstClassesStepByEight(3);
      GroupBlockSize(4);
    } else if ShapeOf(i).ndelta < 4 {
      StepWithinGroup(i);
    } else {
      StepAcrossGroups(i);
    }
  }

  /** Block size is strictly increasing in the index across the whole table. */
  lemma {:induction false} BlockSizeIncreasing(i: nat, j: nat)
    requires i < j
    ensures BlockSize(i) < BlockSize(j)
  {
    BlockSizeStep(j - 1);
    if i < j - 1 {
      BlockSizeIncreasing(i, j - 1);
    }
  }

  /** The largest block size in the table. */
  function MaxBlockSize(): nat
  {
    BlockSize(NUM_CLASSES - 1)
  }

  /** The smallest class whose blocks hold `size` bytes: the meaning of a size-to-class lookup,
      as a reference for the lookup table. */
  function LeastClass(size: nat): (r: nat)
    requires size <= MaxBlockSize()
    ensures r < NUM_CLASSES && size <= BlockSize(r)
    ensures forall j :: 0 <= j < r ==> BlockSize(j) < size
  {
    LeastClassFrom(size, 0)
  }

  function LeastClassFrom(size: nat, i: nat): (r: nat)
    requires i < NUM_CLASSES && size <= MaxBlockSize()
    requires forall j :: 0 <= j < i ==> BlockSize(j) < size
    ensures i <= r < NUM_CLASSES && size <= BlockSize(r)
    ensures forall j :: 0 <= j < r ==> BlockSize(j) < size
    decreases NUM_CLASSES - i
  {
    if size <= BlockSize(i) || i == NUM_CLASSES - 1 then i
    else LeastClassFrom(size, i + 1)
  }

  /** Any class holding `size` bytes is at or after `LeastClass(size)`, and every class after it
      holds `size` bytes too. */
  lemma LeastClassIsLeast(size: nat, k: nat)
    requires size <= MaxBlockSize() && k < NUM_CLASSES
    ensures size <= BlockSize(k) <==> LeastClass(size) <= k
  {
    var c := LeastClass(size);
    if c < k {
      BlockSizeIncreasing(c, k);
    } else if k < c {
      assert BlockSize(k) < size;
    }
  }

  /** A larger request never maps to a smaller class. */
  lemma LeastClassMonotone(s1: nat, s2: nat)
    requires s1 <= s2 <= MaxBlockSize()
    ensures LeastClass(s1) <= LeastClass(s2)
  {
    LeastClassIsLeast(s1, LeastClass(s2));
  }

  /** `SizeClassData`: block size, superblock size, cached block count, cache size. */
  datatype SizeClassData = SizeClassData(blockSize: nat, sbSize: nat, blockNum: nat, cacheBlockNum: nat)

  /** The invariant the comments of `SizeClassData` state: the superblock is a whole number of
      pages and `block_num` is `sb_size / block_size`. The page size is a parameter. */
  predicate DataValid(d: SizeClassData, pageSize: nat)
  {
    && d.blockSize > 0 && pageSize > 0
    && d.sbSize % pageSize == 0
    && d.blockNum == d.sbSize / d.blockSize
  }

  /** `get_block_num`: the number of whole blocks that fit in the superblock. */
  function GetBlockNum(d: SizeClassData, pageSize: nat): (r: nat)
    requires DataValid(d, pageSize)
    ensures r * d.blockSize <= d.sbSize < (r + 1) * d.blockSize
  {
    DivBounds(d.sbSize, d.blockSize);
    d.blockNum
  }

  lemma DivBounds(a: nat, b: nat)
    requires b > 0
    ensures (a / b) * b <= a < (a / b + 1) * b
  {
  }

  /** A `SizeClass` instance: the class array (`sizeclasses[MAX_SZ_IDX]`) and the lookup array
      (`sizeclass_lookup[MAX_SZ + 1]`). Both are filled by the constructor in `SizeClass.cpp`,
      which is not part of this model: the arrays and the bounds `MAX_SZ` and `MAX_SZ_IDX` are
      parameters, constrained by `TableValid`. */
  datatype SizeClassTable = SizeClassTable(classes: seq<SizeClassData>, lookup: seq<nat>)

  predicate TableValid(t: SizeClassTable, maxSz: nat, maxSzIdx: nat, pageSize: nat)
  {
    && |t.classes| == maxSzIdx
    && |t.lookup| == maxSz + 1
    && (forall s :: 0 <= s < |t.lookup| ==> t.lookup[s] < maxSzIdx)
    && (forall k :: 0 <= k < |t.classes| ==> DataValid(t.classes[k], pageSize))
  }

  /** `get_sizeclass(size)`: defined for `size <= MAX_SZ`; the class index it gives can be
      handed to `get_sizeclass_by_idx`. */
  function GetSizeclass(t: SizeClassTable, maxSz: nat, maxSzIdx: nat, pageSize: nat, size: nat): (r: nat)
    requires TableValid(t, maxSz, maxSzIdx, pageSize) && size <= maxSz
    ensures r < maxSzIdx
  {
    t.lookup[size]
  }

  /** `get_sizeclass_by_idx(idx)`: defined for `idx < MAX_SZ_IDX`; the class it gives satisfies
      the `SizeClassData` invariant. */
  function GetSizeclassByIdx(t: SizeClassTable, maxSz: nat, maxSzIdx: nat, pageSize: nat, idx: nat): (r: SizeClassData)
    requires TableValid(t, maxSz, maxSzIdx, pageSize) && idx < maxSzIdx
    ensures DataValid(r, pageSize)
  {
    t.classes[idx]
  }

  /** A lookup table that agrees with `LeastClass` on every size it covers. */
  predicate LookupIsLeastFit(t: SizeClassTable, maxSz: nat)
  {
    && |t.lookup| == maxSz + 1
    && maxSz <= MaxBlockSize()
    && forall s :: 0 <= s <= maxSz ==> t.lookup[s] == LeastClass(s)
  }

  /** Under a least-fit lookup, `get_sizeclass` is monotone in the size and the class it picks
      holds the request, while no earlier class does. */
  lemma LeastFitLookup(t: SizeClassTable, maxSz: nat, maxSzIdx: nat, pageSize: nat, s1: nat, s2: nat)
    requires TableValid(t, maxSz, maxSzIdx, pageSize) && LookupIsLeastFit(t, maxSz)
    requires s1 <= s2 <= maxSz
    ensures GetSizeclass(t, maxSz, maxSzIdx, pageSize, s1) <= GetSizeclass(t, maxSz, maxSzIdx, pageSize, s2)
    ensures s1 <= BlockSize(GetSizeclass(t, maxSz, maxSzIdx, pageSize, s1))
  {
    LeastClassMonotone(s1, s2);
  }
}
