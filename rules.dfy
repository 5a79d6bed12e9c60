/** The constants of Lab2/game.py and get_next_player. */
module Rules {
  import M = BoardModel

  const BoardWidth: nat := 7
  const BoardHeight: nat := 6
  const SequenceLength: nat := 4
  /** Plies the coordinator expands into tasks; DEPTH_WORKER = DEPTH - DEPTH_MASTER. */
  const DepthMaster: nat := 2

  /** The tags of the messages between the coordinator (rank 0) and the workers. */
  const TagRequest: int := 3
  const TagTask: int := 4
  const TagWait: int := 5
  const TagResult: int := 6

  /** game.py numbers the players HUMAN = 1 and CPU = 2, the reverse of board.py's enum;
      both are in the set of players the board accepts. */
  const PlayerHuman: int := 1
  const PlayerCpu: int := 2

  /** get_next_player: the human after the computer, the computer after anyone else. */
  function NextPlayer(p: int): (q: int)
    ensures q in M.Players
    ensures q == PlayerHuman <==> p == PlayerCpu
  {
    if p == PlayerCpu then PlayerHuman else PlayerCpu
  }

  /** On the two players get_next_player swaps them and undoes itself. */
  lemma NextPlayerSwaps(p: int)
    requires p in M.Players
    ensures NextPlayer(p) != p && NextPlayer(NextPlayer(p)) == p
  {
  }
}
