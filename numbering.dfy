/** The numbering counters of the renamer: a counter per grid and, in "group by block
    type" mode, a counter per block-type name. Each numbering request hands out the
    selected counter's value and bumps it; the number is zero-padded to the digit count
    of the user's counter format. */
module Numbering {
  import opened Wrappers
  import opened Decimal

  /** The counter format ProcessNumbering uses when the block has none stored. */
  const DEFAULT_FORMAT := "01"
  /** The counter format the Reset Counter button uses when the block has none stored. */
  const DEFAULT_RESET_FORMAT := "001"
  /** The separator used when the block has none stored. */
  const DEFAULT_SEPARATOR := " "

  /** The number a counter starts from: the integer spelled by the digits of the
      format, or 0 when the format has no digits or they exceed int.MaxValue
      (a failed `int.TryParse` leaves its out-parameter 0). */
  function StartNumber(format: string): (n: Int32)
    ensures 0 <= n
    ensures DigitsValue(DigitsOf(format)) <= MAX_INT32 ==> n == DigitsValue(DigitsOf(format))
    ensures DigitsValue(DigitsOf(format)) > MAX_INT32 ==> n == 0
  {
    var digits := DigitsOf(format);
    if digits == [] then 0
    else
      ParseDigits(digits);
      TryParseInt32(digits).GetOr(0)
  }

  /** The width of the formatted number: the number of digits in the format, at least 1. */
  function DigitWidth(format: string): (w: nat)
    ensures w >= 1
    ensures DigitsOf(format) != [] ==> w == |DigitsOf(format)|
    ensures DigitsOf(format) == [] ==> w == 1
  {
    var digits := DigitsOf(format);
    if |digits| > 0 then |digits| else 1
  }

  /** `n.ToString("D" + DigitWidth(format))`. */
  function FormatNumber(n: Int32, format: string): string
  {
    FormatD(n, DigitWidth(format))
  }

  /** The request a numbering button sends: NUMPREFIX with the number before the
      separator, or NUM with the separator before the number. */
  function NumberingRequest(n: Int32, format: string, separator: string, isPrefix: bool): (string, string)
  {
    if isPrefix then ("NUMPREFIX", FormatNumber(n, format) + separator)
    else ("NUM", separator + FormatNumber(n, format))
  }

  /** A non-negative counter is written as digits only, at least as many as the format
      has, and those digits spell the counter. */
  lemma FormatNumberReadsBack(n: Int32, format: string)
    requires n >= 0
    ensures AllDigits(FormatNumber(n, format))
    ensures DigitsValue(FormatNumber(n, format)) == n
    ensures |FormatNumber(n, format)| >= DigitWidth(format)
  {
    FormatDNonNegative(n, DigitWidth(format));
  }

  /** The first number handed out for a format reproduces the format's own digits:
      format "007" numbers "007", "008", ..., and "a1b2" numbers "12", "13", .... */
  lemma {:induction false} FirstNumberEchoesFormat(format: string)
    requires DigitsOf(format) != []
    requires DigitsValue(DigitsOf(format)) <= MAX_INT32
    ensures FormatNumber(StartNumber(format), format) == DigitsOf(format)
  {
    var digits := DigitsOf(format);
    var n := StartNumber(format);
    var r := FormatNumber(n, format);
    NatToDigitsFits(n, |digits|);
    FormatDNonNegative(n, |digits|);
    DigitsValueInjective(r, digits);
  }

  class Counters {
    /** GridNumberCounters: grid entity id to the next number for that grid. */
    var gridCounters: map<Int64, Int32>
    /** BlockTypeCounters: block type display name to the next number for that type. */
    var typeCounters: map<string, Int32>
    /** GroupByBlockType. */
    var groupByType: bool
    /** AutoContinueNumbering. */
    var autoContinue: bool

    /** The session's initial state: no counters, grouping off, auto-continue on. */
    constructor ()
      ensures gridCounters == map[] && typeCounters == map[]
      ensures !groupByType && autoContinue
    {
      gridCounters := map[];
      typeCounters := map[];
      groupByType := false;
      autoContinue := true;
    }

    /** The number the next counter step for a block hands out: the key is the block
        type in group mode and the grid otherwise; with auto-continue on an existing key
        keeps its count, otherwise the count starts over at the format's start number. */
    function NextValue(gridId: Int64, blockType: string, format: string): Int32
      reads this
    {
      if autoContinue && groupByType && blockType in typeCounters then typeCounters[blockType]
      else if autoContinue && !groupByType && gridId in gridCounters then gridCounters[gridId]
      else StartNumber(format)
    }

    /** The counter step of ProcessNumbering. With auto-continue off the key is first
        reset to the start number; a missing key starts there too. The key's value is
        handed out and the key is raised by one (with int wrap-around); nothing else
        changes. */
    method NextNumber(gridId: Int64, blockType: string, format: string) returns (current: Int32)
      modifies this
      ensures current == old(NextValue(gridId, blockType, format))
      ensures groupByType == old(groupByType) && autoContinue == old(autoContinue)
      ensures groupByType ==>
        typeCounters == old(typeCounters)[blockType := Inc32(current)] && gridCounters == old(gridCounters)
      ensures !groupByType ==>
        gridCounters == old(gridCounters)[gridId := Inc32(current)] && typeCounters == old(typeCounters)
    {
      if !autoContinue {
        var start := StartNumber(format);
        if groupByType {
          typeCounters := typeCounters[blockType := start];
        } else {
          gridCounters := gridCounters[gridId := start];
        }
      }
      if groupByType {
        if blockType !in typeCounters {
          typeCounters := typeCounters[blockType := StartNumber(format)];
        }
        current := typeCounters[blockType];
        typeCounters := typeCounters[blockType := Inc32(current)];
      } else {
        if gridId !in gridCounters {
          gridCounters := gridCounters[gridId := StartNumber(format)];
        }
        current := gridCounters[gridId];
        gridCounters := gridCounters[gridId := Inc32(current)];
      }
    }

    /** The numbering part of ProcessNumbering up to the request it sends: the stored
        format (default "01") and separator (default " ") choose the start number, the
        padding and the layout of the request value. */
    method Number(gridId: Int64, blockType: string, format: Option<string>,
                  separator: Option<string>, isPrefix: bool)
      returns (action: string, value: string, ghost current: Int32)
      modifies this
      ensures groupByType == old(groupByType) && autoContinue == old(autoContinue)
      ensures current == old(NextValue(gridId, blockType, format.GetOr(DEFAULT_FORMAT)))
      ensures groupByType ==>
        typeCounters == old(typeCounters)[blockType := Inc32(current)] && gridCounters == old(gridCounters)
      ensures !groupByType ==>
        gridCounters == old(gridCounters)[gridId := Inc32(current)] && typeCounters == old(typeCounters)
      ensures var fmt := format.GetOr(DEFAULT_FORMAT);
        var sep := separator.GetOr(DEFAULT_SEPARATOR);
        && action == (if isPrefix then "NUMPREFIX" else "NUM")
        && value == (if isPrefix then FormatNumber(current, fmt) + sep else sep + FormatNumber(current, fmt))
    {
      var fmt := format.GetOr(DEFAULT_FORMAT);
      var n := NextNumber(gridId, blockType, fmt);
      current := n;
      var request := NumberingRequest(n, fmt, separator.GetOr(DEFAULT_SEPARATOR), isPrefix);
      action, value := request.0, request.1;
    }

    /** The Reset Counter button: the grid's counter goes back to the start number of
        the stored format (default "001"); the block-type counters are cleared only in
        group mode. */
    method ResetCounter(gridId: Int64, format: Option<string>)
      modifies this
      ensures gridCounters == old(gridCounters)[gridId := StartNumber(format.GetOr(DEFAULT_RESET_FORMAT))]
      ensures typeCounters == if groupByType then map[] else old(typeCounters)
      ensures groupByType == old(groupByType) && autoContinue == old(autoContinue)
    {
      gridCounters := gridCounters[gridId := StartNumber(format.GetOr(DEFAULT_RESET_FORMAT))];
      if groupByType {
        typeCounters := map[];
      }
    }

    /** The "Group by Block Type" checkbox: turning grouping on clears the block-type
        counters, turning it off keeps them. */
    method SetGroupByType(value: bool)
      modifies this
      ensures groupByType == value
      ensures typeCounters == if value then map[] else old(typeCounters)
      ensures gridCounters == old(gridCounters) && autoContinue == old(autoContinue)
    {
      groupByType := value;
      if value {
        typeCounters := map[];
      }
    }

    /** The "Auto Continue Numbering" checkbox. */
    method SetAutoContinue(value: bool)
      modifies this
      ensures autoContinue == value
      ensures gridCounters == old(gridCounters) && typeCounters == old(typeCounters)
      ensures groupByType == old(groupByType)
    {
      autoContinue := value;
    }

    /** GetCurrentCounterStatus for a block on grid `grid` (None: no block or no grid)
        whose type is `blockType`. The label shows the selected counter, which is the number
        the next numbering call hands out while auto-continue is on, in a form that
        `int.TryParse` reads back; "Next: Ready" when that counter does not exist yet. */
    function CounterStatus(grid: Option<Int64>, blockType: string): (r: string)
      reads this
      ensures grid.None? ==> r == "Counter: N/A"
      ensures grid.Some? && groupByType && blockType in typeCounters ==>
        && "Next " + blockType + ": " <= r
        && TryParseInt32(r[7 + |blockType|..]) == Some(typeCounters[blockType])
      ensures grid.Some? && !groupByType && grid.value in gridCounters ==>
        && "Next Number: " <= r
        && TryParseInt32(r[13..]) == Some(gridCounters[grid.value])
      ensures grid.Some? && (if groupByType then blockType !in typeCounters else grid.value !in gridCounters) ==>
        r == "Next: Ready"
    {
      if grid.None? then "Counter: N/A"
      else if groupByType then
        if blockType in typeCounters then
          var caption := "Next " + blockType + ": ";
          TryParseInt32AfterText(caption, typeCounters[blockType]);
          caption + IntToString(typeCounters[blockType])
        else "Next: Ready"
      else if grid.value in gridCounters then
        TryParseInt32AfterText("Next Number: ", gridCounters[grid.value]);
        "Next Number: " + IntToString(gridCounters[grid.value])
      else "Next: Ready"
    }
  }

  /** Both default formats start counting at 1. */
  lemma DefaultStartNumbers()
    ensures StartNumber(DEFAULT_FORMAT) == 1
    ensures StartNumber(DEFAULT_RESET_FORMAT) == 1
  {
    assert AllDigits(DEFAULT_FORMAT) && DigitsOf(DEFAULT_FORMAT) == DEFAULT_FORMAT;
    assert DEFAULT_FORMAT[..1] == "0";
    assert AllDigits(DEFAULT_RESET_FORMAT) && DigitsOf(DEFAULT_RESET_FORMAT) == DEFAULT_RESET_FORMAT;
    assert DEFAULT_RESET_FORMAT[..2] == "00" && "00"[..1] == "0";
  }

  /** What a caller can conclude from the contracts alone: numbering two blocks of one grid
      with format "01" hands out 1 and then 2; Reset Counter starts the grid over; a grid
      of its own has its own count. */
  method CountersExample(grid: Int64, otherGrid: Int64)
    requires grid != otherGrid
  {
    DefaultStartNumbers();
    var counters := new Counters();
    var first := counters.NextNumber(grid, "Small Thruster", DEFAULT_FORMAT);
    var second := counters.NextNumber(grid, "Small Thruster", DEFAULT_FORMAT);
    assert first == 1 && second == 2;
    var elsewhere := counters.NextNumber(otherGrid, "Small Thruster", DEFAULT_FORMAT);
    assert elsewhere == 1;
    counters.ResetCounter(grid, None);
    var again := counters.NextNumber(grid, "Small Thruster", DEFAULT_FORMAT);
    assert again == 1;
  }
}
