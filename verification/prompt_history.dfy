/** The prompt's command history (client/app/js/client.js:559-565, 580-589,
    740-758): an array whose last slot is the draft being typed, above it the
    commands entered so far, and a cursor into the array. */
module PromptHistory {
  import opened Common

  /** The commands entered so far: everything above the draft slot. */
  function Committed(history: seq<string>): seq<string>
    requires |history| >= 1
  {
    history[..|history| - 1]
  }

  predicate NoAdjacentRepeats(s: seq<string>) {
    forall i :: 0 < i < |s| ==> s[i - 1] != s[i]
  }

  /** What the history and its cursor keep: the array is never empty, the
      cursor is on one of its slots, and the commands entered so far are
      non-empty with no two adjacent ones equal. */
  predicate WellFormed(history: seq<string>, index: int) {
    |history| >= 1 && 0 <= index < |history| &&
    (forall i :: 0 <= i < |history| - 1 ==> history[i] != "") &&
    NoAdjacentRepeats(history[..|history| - 1])
  }

  /** Whether a command is recorded: it is non-empty and differs from the
      entry above the draft slot (there is none when the array has one slot). */
  predicate Records(history: seq<string>, cmd: string) {
    cmd != "" && (|history| < 2 || history[|history| - 2] != cmd)
  }

  /** The history after a command: a recorded command takes the draft slot
      and a new empty draft slot follows it. */
  function AfterCommand(history: seq<string>, cmd: string): (h: seq<string>)
    requires |history| >= 1
    ensures |h| >= 1
    ensures Committed(h) == Committed(history) + (if Records(history, cmd) then [cmd] else [])
    ensures Records(history, cmd) ==> h[|h| - 1] == ""
    ensures !Records(history, cmd) ==> h == history
  {
    if Records(history, cmd) then history[..|history| - 1] + [cmd, ""] else history
  }

  /** What a history key leaves: the array, the cursor, and the text put into
      the prompt (None when the prompt is left as it is). */
  datatype Recall = Recall(history: seq<string>, index: int, shown: Option<string>)

  /** `historyUp`: the prompt's text is kept in the draft slot when the cursor
      is on it; then the cursor moves up, if it can, and shows that entry. */
  function Up(history: seq<string>, index: int, text: string): (r: Recall)
    requires 0 <= index < |history|
    ensures |r.history| == |history| && Committed(r.history) == Committed(history)
    ensures r.history[|history| - 1] == (if index == |history| - 1 then text else history[|history| - 1])
    ensures 0 <= r.index < |r.history|
    ensures index > 0 <==> r.shown.Some?
    ensures r.shown.Some? ==> r.index == index - 1 && r.shown.value == r.history[r.index]
    ensures r.shown.None? ==> r.index == index
  {
    var h := if index == |history| - 1 then history[|history| - 1 := text] else history;
    if index > 0 then Recall(h, index - 1, Some(h[index - 1])) else Recall(h, index, None)
  }

  /** `historyDown`: the cursor moves down, if it can, and shows that entry; the array is untouched. */
  function Down(history: seq<string>, index: int): (r: Recall)
    requires 0 <= index < |history|
    ensures r.history == history && 0 <= r.index < |history|
    ensures index < |history| - 1 <==> r.shown.Some?
    ensures r.shown.Some? ==> r.index == index + 1 && r.shown.value == history[r.index]
    ensures r.shown.None? ==> r.index == index
  {
    if index < |history| - 1 then Recall(history, index + 1, Some(history[index + 1])) else Recall(history, index, None)
  }

  /** A command keeps the history well formed, with the cursor on the draft slot. */
  lemma CommandKeepsWellFormed(history: seq<string>, index: int, cmd: string)
    requires WellFormed(history, index)
    ensures var h := AfterCommand(history, cmd); WellFormed(h, |h| - 1)
  {
    var h := AfterCommand(history, cmd);
    if Records(history, cmd) {
      var c := Committed(history);
      assert Committed(h) == c + [cmd];
      assert h[..|h| - 1] == c + [cmd];
      forall i | 0 < i < |c + [cmd]| ensures (c + [cmd])[i - 1] != (c + [cmd])[i] {
        if i == |c| {
          assert c[|c| - 1] == history[|history| - 2];
        } else {
          assert (c + [cmd])[i - 1] == c[i - 1] && (c + [cmd])[i] == c[i];
        }
      }
      forall i | 0 <= i < |h| - 1 ensures h[i] != "" {
        if i < |c| {
          assert h[i] == c[i];
        }
      }
    }
  }

  /** Entering the same command twice in a row records it once. */
  lemma CommandIdempotent(history: seq<string>, cmd: string)
    requires |history| >= 1
    ensures AfterCommand(AfterCommand(history, cmd), cmd) == AfterCommand(history, cmd)
  {
    var h := AfterCommand(history, cmd);
    if Records(history, cmd) {
      assert h[|h| - 2] == Committed(h)[|h| - 2] == cmd;
    }
  }

  /** Going up keeps the history well formed; so does going down. */
  lemma KeysKeepWellFormed(history: seq<string>, index: int, text: string)
    requires WellFormed(history, index)
    ensures var r := Up(history, index, text); WellFormed(r.history, r.index)
    ensures var r := Down(history, index); WellFormed(r.history, r.index)
  {
    var r := Up(history, index, text);
    assert r.history[..|r.history| - 1] == Committed(r.history) == Committed(history);
    forall i | 0 <= i < |r.history| - 1 ensures r.history[i] != "" {
      assert r.history[i] == Committed(r.history)[i];
    }
  }

  /** Right after a recorded command, the up key recalls it. */
  lemma UpRecallsLastCommand(history: seq<string>, cmd: string, text: string)
    requires |history| >= 1 && Records(history, cmd)
    ensures var h := AfterCommand(history, cmd); Up(h, |h| - 1, text).shown == Some(cmd)
  {
    var h := AfterCommand(history, cmd);
    assert h[|h| - 2] == Committed(h)[|h| - 2];
  }

  /** Up from the draft and then down again puts the draft back into the prompt. */
  lemma UpDownRestoresDraft(history: seq<string>, text: string)
    requires |history| >= 2
    ensures var u := Up(history, |history| - 1, text);
      var d := Down(u.history, u.index);
      d.shown == Some(text) && d.index == |history| - 1 && d.history == history[|history| - 1 := text]
  {
  }

  /** Down and then up returns to the same entry when the cursor is above the draft slot. */
  lemma DownUpReturns(history: seq<string>, index: int, text: string)
    requires 0 <= index < |history| - 1
    ensures var d := Down(history, index);
      var u := Up(d.history, d.index, text);
      u.index == index && u.shown == Some(history[index])
  {
  }

  /** The prompt state `OctMethods.prompt` keeps for the history. */
  class Prompt {
    var history: seq<string>
    var index: int
    var enabled: bool

    ghost predicate Valid()
      reads this
    {
      WellFormed(history, index)
    }

    /** The initial state: one empty draft slot, the cursor on it, the prompt enabled. */
    constructor ()
      ensures Valid() && history == [""] && index == 0 && enabled
    {
      history := [""];
      index := 0;
      enabled := true;
    }

    /** The history part of `console.command`: ignored while the prompt is
      disabled; otherwise records the command, puts the cursor on the draft
      slot and disables the prompt. The echo to the console is
      `ConsoleText.WriteCommand`. */
    method Command(cmd: string)
      requires Valid()
      modifies this
      ensures Valid()
      ensures !old(enabled) ==> history == old(history) && index == old(index) && enabled == old(enabled)
      ensures old(enabled) ==> history == AfterCommand(old(history), cmd) && index == |history| - 1 && !enabled
    {
      if !enabled {
        return;
      }
      Record(cmd);
      enabled := false;
    }

    /** The "add command to history" step of `console.command`. */
    method Record(cmd: string)
      requires Valid()
      modifies this
      ensures Valid() && enabled == old(enabled)
      ensures history == AfterCommand(old(history), cmd) && index == |history| - 1
    {
      CommandKeepsWellFormed(history, index, cmd);
      if cmd != "" && (|history| < 2 || history[|history| - 2] != cmd) {
        history := history[|history| - 1 := cmd];
        history := history + [""];
      }
      index := |history| - 1;
    }

    /** `prompt.enable` */
    method Enable()
      modifies this
      ensures history == old(history) && index == old(index) && enabled
    {
      enabled := true;
    }

    /** `historyUp`, given the prompt's current text. */
    method HistoryUp(text: string) returns (shown: Option<string>)
      requires Valid()
      modifies this
      ensures Valid()
      ensures Recall(history, index, shown) == Up(old(history), old(index), text)
    {
      KeysKeepWellFormed(history, index, text);
      if index == |history| - 1 {
        history := history[|history| - 1 := text];
      }
      shown := None;
      if index > 0 {
        index := index - 1;
        shown := Some(history[index]);
      }
    }

    /** `historyDown` */
    method HistoryDown() returns (shown: Option<string>)
      requires Valid()
      modifies this
      ensures Valid()
      ensures Recall(history, index, shown) == Down(old(history), old(index))
    {
      KeysKeepWellFormed(history, index, "");
      shown := None;
      if index < |history| - 1 {
        index := index + 1;
        shown := Some(history[index]);
      }
    }
  }
}
