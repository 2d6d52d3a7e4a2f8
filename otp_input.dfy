/** The one-time-code input: a fixed row of `length` cells, each holding the
    empty string or one character, with keyboard focus moving between them.
    A multi-character change is a paste and is spread over the row from the
    first cell; a single-character change edits one cell; backspace on an
    empty cell clears the cell before it. Every time the row is full the
    joined code is reported through `onComplete`, kept here as a log. */
module OtpInput {
  import opened Wrappers

  /** Which cell, if any, holds the keyboard focus. */
  datatype Focus = Blurred | Cell(index: nat)

  /** Every cell is empty or a single character. */
  predicate WellFormed(cells: seq<string>) {
    forall i :: 0 <= i < |cells| ==> |cells[i]| <= 1
  }

  /** `cells.every(digit => digit !== '')` */
  predicate AllFilled(cells: seq<string>) {
    forall i :: 0 <= i < |cells| ==> cells[i] != ""
  }

  /** `cells.join('')` */
  function Join(cells: seq<string>): (code: string)
    ensures WellFormed(cells) && AllFilled(cells) ==> |code| == |cells|
  {
    if cells == [] then "" else Join(cells[..|cells| - 1]) + cells[|cells| - 1]
  }

  /** `cells.findIndex(d => d === '')`, with None for -1. */
  function FirstEmpty(cells: seq<string>): (r: Option<nat>)
    ensures r == None <==> AllFilled(cells)
    ensures r.Some? ==> r.value < |cells| && cells[r.value] == ""
    ensures r.Some? ==> forall j :: 0 <= j < r.value ==> cells[j] != ""
  {
    if cells == [] then None
    else if cells[0] == "" then Some(0)
    else match FirstEmpty(cells[1..])
      case None => None
      case Some(k) => Some(k + 1)
  }

  function Min(a: nat, b: nat): nat {
    if a <= b then a else b
  }

  /** The cell `i` of a paste: the `i`-th character of the text cut to
      `length`, or empty past its end. */
  function PasteCell(text: string, length: nat, i: nat): (cell: string)
    ensures |cell| <= 1
  {
    if i < Min(|text|, length) then [text[i]] else ""
  }

  /** The whole row after a paste. */
  function PastedCells(text: string, length: nat): (cells: seq<string>)
    ensures |cells| == length && WellFormed(cells)
  {
    seq(length, i requires 0 <= i < length => PasteCell(text, length, i))
  }

  /** A paste fills the row exactly when it is at least `length` long. */
  lemma PasteFillsIff(text: string, length: nat)
    ensures AllFilled(PastedCells(text, length)) <==> |text| >= length
  {
    var cells := PastedCells(text, length);
    if |text| < length {
      assert cells[|text|] == "";
    }
  }

  /** A short paste leaves the focus candidate right after its last character. */
  lemma PasteFirstEmpty(text: string, length: nat)
    ensures FirstEmpty(PastedCells(text, length)) ==
      if |text| >= length then None else Some(|text|)
  {
    PasteFillsIff(text, length);
    var cells := PastedCells(text, length);
    var r := FirstEmpty(cells);
    if |text| < length {
      assert cells[|text|] == "";
      assert forall j :: 0 <= j < |text| ==> cells[j] == [text[j]];
    }
  }

  /** Joining the cells of a paste gives back the pasted text cut to `length`. */
  lemma {:induction false} PasteJoinRoundTrip(text: string, length: nat)
    ensures Join(PastedCells(text, length)) == text[..Min(|text|, length)]
  {
    if length > 0 {
      var cells := PastedCells(text, length);
      var front, shorter := cells[..length - 1], PastedCells(text, length - 1);
      assert front == shorter by {
        forall i | 0 <= i < |front| ensures front[i] == shorter[i] {
          assert PasteCell(text, length, i) == PasteCell(text, length - 1, i);
        }
      }
      PasteJoinRoundTrip(text, length - 1);
      assert Join(cells) == Join(front) + cells[length - 1];
      if |text| >= length {
        assert text[..length] == text[..length - 1] + [text[length - 1]];
      }
    }
  }

  /** A full row's code has one character per cell, in cell order. */
  lemma {:induction false} JoinOfFullRow(cells: seq<string>, i: nat)
    requires WellFormed(cells) && AllFilled(cells) && i < |cells|
    ensures |Join(cells)| == |cells| && Join(cells)[i] == cells[i][0]
  {
    var last := |cells| - 1;
    var front := cells[..last];
    assert WellFormed(front) && AllFilled(front) by {
      forall j | 0 <= j < |front| ensures |front[j]| == 1 { assert front[j] == cells[j]; }
    }
    if i < last {
      JoinOfFullRow(front, i);
      assert front[i] == cells[i];
    }
  }

  class OtpInput {
    const length: nat
    /** The `code` state: one string per cell. */
    const code: array<string>
    var focus: Focus
    /** The codes passed to `onComplete`, in order. */
    var completions: seq<string>

    ghost predicate Valid()
      reads this, code
    {
      code.Length == length && WellFormed(code[..]) &&
      (focus.Cell? ==> focus.index < length)
    }

    /** The row as the user sees it. */
    function Cells(): seq<string>
      reads this, code
    {
      code[..]
    }

    /** Mounting: `length` empty cells, nothing focused yet. */
    constructor (length: nat)
      ensures Valid() && fresh(code)
      ensures this.length == length && Cells() == seq(length, _ => "")
      ensures focus == Blurred && completions == []
    {
      this.length := length;
      code := new string[length](_ => "");
      focus := Blurred;
      completions := [];
    }

    /** The focus request made after mounting: the first cell, if any. */
    method AutoFocus()
      requires Valid()
      modifies this`focus
      ensures Valid()
      ensures focus == if length > 0 then Cell(0) else old(focus)
    {
      FocusCell(0);
    }

    /** `focusInput(i)`: focuses cell `i` when there is one. */
    method FocusCell(i: nat)
      requires Valid()
      modifies this`focus
      ensures Valid()
      ensures focus == if i < length then Cell(i) else old(focus)
    {
      if i < length {
        focus := Cell(i);
      }
    }

    /** The loop of a paste: every cell is overwritten from the text. */
    method DistributePaste(text: string)
      requires Valid()
      modifies code
      ensures Valid()
      ensures Cells() == PastedCells(text, length)
    {
      var pasted := text[..Min(|text|, length)];
      var i := 0;
      while i < length
        invariant 0 <= i <= length
        invariant forall j :: 0 <= j < i ==> code[j] == PasteCell(text, length, j)
        invariant forall j :: i <= j < length ==> code[j] == old(code[j])
      {
        code[i] := if i < |pasted| then [pasted[i]] else "";
        i := i + 1;
      }
    }

    /** `handleChange(text, index)`, called by cell `index`. */
    method HandleChange(text: string, index: nat)
      requires Valid() && index < length
      modifies this`focus, this`completions, code
      ensures Valid()
      ensures Cells() == if |text| > 1 then PastedCells(text, length) else old(Cells())[index := text]
      ensures completions ==
        if AllFilled(Cells()) then old(completions) + [Join(Cells())] else old(completions)
      ensures |text| > 1 && AllFilled(Cells()) ==>
        focus == if old(focus) == Cell(length - 1) then Blurred else old(focus)
      ensures |text| > 1 && !AllFilled(Cells()) ==> focus == Cell(FirstEmpty(Cells()).value)
      ensures |text| <= 1 ==>
        focus == if text != "" && index < length - 1 then Cell(index + 1) else old(focus)
    {
      if |text| > 1 {
        DistributePaste(text);
        if AllFilled(code[..]) {
          completions := completions + [Join(code[..])];
          if focus == Cell(length - 1) {
            focus := Blurred;
          }
        } else {
          var firstEmpty := FirstEmpty(code[..]);
          FocusCell(firstEmpty.value);
        }
        return;
      }
      code[index] := text;
      if text != "" && index < length - 1 {
        FocusCell(index + 1);
      }
      if AllFilled(code[..]) {
        completions := completions + [Join(code[..])];
      }
    }

    /** `handleKeyPress(e, index)`: only a backspace on an empty cell past the
        first one does anything; it clears the previous cell and focuses it. */
    method HandleKeyPress(key: string, index: nat)
      requires Valid() && index < length
      modifies this`focus, code
      ensures Valid() && completions == old(completions)
      ensures key == "Backspace" && old(Cells())[index] == "" && index > 0 ==>
        Cells() == old(Cells())[index - 1 := ""] && focus == Cell(index - 1)
      ensures !(key == "Backspace" && old(Cells())[index] == "" && index > 0) ==>
        Cells() == old(Cells()) && focus == old(focus)
    {
      if key == "Backspace" {
        if code[index] == "" && index > 0 {
          code[index - 1] := "";
          FocusCell(index - 1);
        }
      }
    }
  }

  /** A paste of at least `length` characters into any cell fills the row
      and reports the pasted code (cut to `length`) exactly once. */
  method PasteFullCode(input: OtpInput, text: string, index: nat)
    requires input.Valid() && index < input.length && |text| >= input.length && |text| > 1
    modifies input`focus, input`completions, input.code
    ensures input.Valid() && AllFilled(input.Cells())
    ensures input.completions == old(input.completions) + [text[..input.length]]
  {
    PasteFillsIff(text, input.length);
    PasteJoinRoundTrip(text, input.length);
    input.HandleChange(text, index);
  }

  /** Nothing stops a repeated report: typing a full row's character again
      into its own cell leaves the code as it was and reports it once more. */
  method RetypeInFullRow(input: OtpInput, index: nat)
    requires input.Valid() && index < input.length && AllFilled(input.Cells())
    modifies input`focus, input`completions, input.code
    ensures input.Cells() == old(input.Cells())
    ensures input.completions == old(input.completions) + [Join(old(input.Cells()))]
  {
    input.HandleChange(input.code[index], index);
  }
}
