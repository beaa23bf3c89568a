/**
 * The difficulty table of constraints/Modes: board width `x`, board height
 * `y` and the number of bombs for each named mode.
 */
module ModeConstraints {

  /** `ModeInfoType`. */
  datatype ModeInfo = ModeInfo(bomb: int, x: int, y: int)

  /** `Modes`. */
  const Modes: map<string, ModeInfo> := map[
    "easy" := ModeInfo(10, 10, 7),
    "normal" := ModeInfo(40, 18, 14),
    "hard" := ModeInfo(99, 24, 20)
  ]

  /**
   * The board can be built for this mode: a non-empty grid, and at most
   * x*y-1 bombs so that one cell is left for the first click.
   */
  predicate Playable(m: ModeInfo) {
    0 < m.x && 0 < m.y && 0 <= m.bomb <= m.x * m.y - 1
  }

  /** The table holds exactly the three modes, with these sizes. */
  lemma ModesTable()
    ensures Modes.Keys == {"easy", "normal", "hard"}
    ensures Modes["easy"] == ModeInfo(10, 10, 7)
    ensures Modes["normal"] == ModeInfo(40, 18, 14)
    ensures Modes["hard"] == ModeInfo(99, 24, 20)
  {
  }

  /** Every mode of the table can be played. */
  lemma ModesPlayable()
    ensures forall name :: name in Modes ==> Playable(Modes[name])
  {
  }
}
