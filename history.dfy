/**
 * saveGameHistory: the list of the last ten stages reached, kept in the browser's storage
 * under "stageHistory".  Storage and JSON are inputs: the stored text, if any, and what
 * parsing it gives.
 */
module History {
  import opened Scoring

  /** At most this many entries are kept. */
  const Kept: nat := 10

  /** The stored item: none, or a text. */
  datatype Stored = Absent | Present(text: string)

  /** What JSON.parse makes of a text: it throws, it gives a non-array, or it gives an array. */
  datatype Parsed = Unparsable | NotArray | List(entries: seq<int>)

  /** The history read back: a missing or empty item, a parse error and a non-array all count as empty. */
  function Loaded(stored: Stored, parse: string -> Parsed): (h: seq<int>)
    ensures h != [] ==> stored.Present? && stored.text != "" && parse(stored.text) == List(h)
  {
    match stored
    case Absent => []
    case Present(text) =>
      if text == "" then []
      else match parse(text)
        case List(entries) => entries
        case _ => []
  }

  /** The stage recorded for a game that ended on stage `stage`: the last one cleared, never below 0. */
  function LastClearedStage(stage: int): (v: int)
    ensures v >= 0 && v >= stage - 1 && (stage >= 1 ==> v == stage - 1)
  {
    Max(0, stage - 1)
  }

  /**
   * saveGameHistory(stage): the loaded history with the new entry pushed, cut back to its last
   * ten entries when it grew longer.
   */
  method SaveGameHistory(stage: int, stored: Stored, parse: string -> Parsed) returns (history: seq<int>)
    ensures var old_ := Loaded(stored, parse);
            var all := old_ + [LastClearedStage(stage)];
            |history| == if |all| > Kept then Kept else |all|
    ensures var all := Loaded(stored, parse) + [LastClearedStage(stage)];
            history == all[|all| - |history|..]
    ensures history[|history| - 1] == LastClearedStage(stage) >= 0
    ensures |Loaded(stored, parse)| < Kept ==> history == Loaded(stored, parse) + [LastClearedStage(stage)]
  {
    var lastClearedStage := Max(0, stage - 1);
    history := [];
    if stored.Present? && stored.text != "" {
      var parsed := parse(stored.text);
      if parsed.List? {
        history := parsed.entries;
      }
    }
    ghost var all := Loaded(stored, parse) + [LastClearedStage(stage)];
    history := history + [lastClearedStage];
    assert history == all;
    if |history| > Kept {
      history := history[|history| - Kept..];
      assert history[|history| - 1] == all[|all| - 1];
    }
  }
}
