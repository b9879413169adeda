# BlockRenamer core, modelled in Dafny

The BlockRenaming mod adds terminal controls that bulk-rename the blocks of a ship
or station. This project models what those controls do, not the widgets themselves:

- **Numbering counters** (`Numbering.Counters`). One counter per grid
  (GridNumberCounters) and, in "group by block type" mode, one per block-type display
  name (BlockTypeCounters). A numbering request hands out the selected counter and
  raises it by one. A missing counter, or any counter while auto-continue is off,
  starts at the number spelled by the digits of the counter format. The number is
  zero-padded to the format's digit count. The Reset Counter button and the two
  checkboxes change the same state.
- **Rename dispatcher** (`Rename.Renamed`). ApplyAction's switch over the eight tags
  REPLACE, PREFIX, SUFFIX, RESET, NUMPREFIX, NUM, THRUST and REGEX computes the
  block's new name. `Blocks.Block.ApplyAction` writes it to the block's CustomName.
- **Request path** (`Wire`, `Blocks`). On the server a request is applied at once.
  On a client it is encoded as `<entityId>|<action>|<value>`. The server splits that
  text on '|', parses the id with `long.TryParse`, looks the block up and applies
  the request.
- **Thruster naming** (`Thrusters`). The thrust direction is mapped to the letter
  of the opposite face, and that letter is substituted into the template.

Host inputs become parameters:
- the values stored in the per-block textboxes are `Option<string>` (None: nothing
  stored, so the source's default applies: "01" for numbering, "001" for Reset
  Counter, " " for the separator);
- the grid id, block type name and thrust direction are fields of `Blocks.Block`;
- "is this instance the server" is a boolean;
- the entity lookup is a map from ids to terminal blocks;
- `Regex.Replace` is a function parameter that returns None where it would throw.

C# integer behaviour is modelled as written. Counters are `int` (`Decimal.Int32`) and
wrap from int.MaxValue to int.MinValue on increment. A digit string above int.MaxValue
fails `int.TryParse`, so it gives start number 0. Entity ids are `long`.

Files: `wrappers.dfy` (Option), `decimal.dfy` (digits, integer formatting and parsing),
`strings.dfy` (Count, Split, Contains, Replace), `numbering.dfy`, `thrusters.dfy`,
`rename.dfy`, `wire.dfy`, `blocks.dfy`.

## Model

| member | source | states |
|---|---|---|
| `Numbering.StartNumber` | Data/Scripts/BlockRenaming/BlockRenamerCore.cs:520-525 | the start number is the value of the format's digits when it fits in an int, and 0 when the format has no digits or they overflow |
| `Numbering.DigitWidth` | Data/Scripts/BlockRenaming/BlockRenamerCore.cs:562-563 | the padding width is the number of digits in the format, and exactly 1 for a format without digits |
| `Numbering.FormatNumber` | Data/Scripts/BlockRenaming/BlockRenamerCore.cs:562-564 | definition: `ToString("D" + DigitWidth(format))`; FormatNumberReadsBack and FirstNumberEchoesFormat state its value |
| `Numbering.NumberingRequest` | Data/Scripts/BlockRenaming/BlockRenamerCore.cs:566-569 | definition: NUMPREFIX with `number + separator`, NUM with `separator + number`; NumberingRequestTravels states that it reaches the server intact |
| `Numbering.FormatNumberReadsBack` | Data/Scripts/BlockRenaming/BlockRenamerCore.cs:562-564 | a non-negative counter is formatted as digits only, at least as many as the width, and those digits spell the counter |
| `Numbering.FirstNumberEchoesFormat` | Data/Scripts/BlockRenaming/BlockRenamerCore.cs:520-564 | the first number handed out for a format with digits (within int range) reproduces exactly the format's digits, leading zeros included |
| `Numbering.DefaultStartNumbers` | Data/Scripts/BlockRenaming/BlockRenamerCore.cs:512-514 | the default numbering format "01", and Reset Counter's default "001" (line 344), both start counting at 1 |
| `Numbering.Counters.constructor` | Data/Scripts/BlockRenaming/BlockRenamerCore.cs:49-62 | the initial values of the static fields: no counters, grouping off and auto-continue on |
| `Numbering.Counters.NextValue` | Data/Scripts/BlockRenaming/BlockRenamerCore.cs:520-558 | definition: the number the next counter step hands out; NextNumber's contract returns it and states the new maps |
| `Numbering.Counters.NextNumber` | Data/Scripts/BlockRenaming/BlockRenamerCore.cs:520-560 | the key is the block type in group mode and the grid otherwise; the call returns NextValue of the old state: the key's old value, or the start number when the key is missing or auto-continue is off; the key becomes that value plus one (int wrap-around); the other map and the flags are unchanged |
| `Numbering.Counters.Number` | Data/Scripts/BlockRenaming/BlockRenamerCore.cs:508-569 | with the stored format (default "01") and separator (default " "), the counter step of NextNumber; the request is NUMPREFIX with `number + separator`, or NUM with `separator + number` |
| `Numbering.Counters.ResetCounter` | Data/Scripts/BlockRenaming/BlockRenamerCore.cs:339-354 | the grid's counter is set to the start number of the stored format (default "001"); the block-type counters are cleared exactly when grouping is on |
| `Numbering.Counters.SetGroupByType` | Data/Scripts/BlockRenaming/BlockRenamerCore.cs:323-328 | turning grouping on clears the block-type counters; turning it off keeps them; grid counters are untouched |
| `Numbering.Counters.SetAutoContinue` | Data/Scripts/BlockRenaming/BlockRenamerCore.cs:286-287 | only the auto-continue flag changes |
| `Numbering.Counters.CounterStatus` | Data/Scripts/BlockRenaming/BlockRenamerCore.cs:709-724 | "Counter: N/A" without a grid; "Next: Ready" when the selected counter is missing; otherwise the label shows the selected counter in a form `int.TryParse` reads back to its value |
| `Decimal.Inc32` | Data/Scripts/BlockRenaming/BlockRenamerCore.cs:545-546 | the incremented counter is the successor modulo 2^32 within int range, and exactly `x + 1` below int.MaxValue |
| `Decimal.DigitsOf` | Data/Scripts/BlockRenaming/BlockRenamerCore.cs:346 | the filtered string holds only digits, is no longer than the input, and is the input itself when that is all digits |
| `Decimal.DigitsOfMembers` | Data/Scripts/BlockRenaming/BlockRenamerCore.cs:346 | a character is kept exactly when it occurs in the input and is a digit |
| `Decimal.DigitsOfConcat` | Data/Scripts/BlockRenaming/BlockRenamerCore.cs:346 | filtering digits distributes over concatenation, so their order is kept |
| `Decimal.DigitsValue` | Data/Scripts/BlockRenaming/BlockRenamerCore.cs:349 | a string of k digits denotes a number below 10^k |
| `Decimal.ParseDigits` | Data/Scripts/BlockRenaming/BlockRenamerCore.cs:349 | the integer syntax accepted by `TryParse` reads a non-empty digit string as the number it spells (the range check is separate) |
| `Decimal.NatToDigits` | Data/Scripts/BlockRenaming/BlockRenamerCore.cs:564 | `ToString()` of a natural number is a non-empty digit string without a leading zero ("0" for zero) that spells the number |
| `Decimal.IntToString` | Data/Scripts/BlockRenaming/BlockRenamerCore.cs:595 | definition: `ToString()`, an optional '-' before NatToDigits of the magnitude; ParseIntToString and TryParseInt64ToString read it back |
| `Decimal.FormatD` | Data/Scripts/BlockRenaming/BlockRenamerCore.cs:564 | definition: `ToString("D" + width)`; FormatDNonNegative and FormatDNegative state its digits, value and length |
| `Decimal.ParseInteger` | Data/Scripts/BlockRenaming/BlockRenamerCore.cs:613 | definition: the `NumberStyles.Integer` syntax without a range check; ParseDigits and ParseIntToString state what it reads, TryParseInt32/TryParseInt64 add the range |
| `Decimal.ParseIntToString` | Data/Scripts/BlockRenaming/BlockRenamerCore.cs:595-613 | the integer syntax accepted by `TryParse` reads back every integer written by `ToString()` |
| `Decimal.TryParseInt64ToString` | Data/Scripts/BlockRenaming/BlockRenamerCore.cs:595-613 | `long.TryParse` of `id.ToString()` gives back `id` |
| `Decimal.TryParseInt32AfterText` | Data/Scripts/BlockRenaming/BlockRenamerCore.cs:718-722 | an int written after a caption is read back from where it starts |
| `Decimal.FormatDNonNegative` | Data/Scripts/BlockRenaming/BlockRenamerCore.cs:564 | the "D<w>" format of n >= 0 is a digit string spelling n whose length is the larger of w and n's own digit count |
| `Decimal.FormatDNegative` | Data/Scripts/BlockRenaming/BlockRenamerCore.cs:564 | the "D<w>" format of a negative n is '-' followed by the format of -n |
| `Decimal.TrimStart` | Data/Scripts/BlockRenaming/BlockRenamerCore.cs:613 | only leading white space is removed, and the result does not start with white space |
| `Decimal.TrimEnd` | Data/Scripts/BlockRenaming/BlockRenamerCore.cs:613 | only trailing white space is removed, and the result does not end with white space |
| `Decimal.TryParseInt64` | Data/Scripts/BlockRenaming/BlockRenamerCore.cs:613 | `long.TryParse` succeeds exactly on integer text whose value lies in long range, with that value |
| `Decimal.TryParseInt32` | Data/Scripts/BlockRenaming/BlockRenamerCore.cs:349 | `int.TryParse` succeeds exactly on integer text whose value lies in int range, with that value |
| `Strings.Count` | Data/Scripts/BlockRenaming/BlockRenamerCore.cs:608-609 | the count of a character is zero exactly when the character does not occur |
| `Strings.Split` | Data/Scripts/BlockRenaming/BlockRenamerCore.cs:608 | `Split(sep)` gives one part more than there are separators; no part holds the separator; the first part is a prefix of the input; a string without the separator is its own single part |
| `Strings.SplitAfterPiece` | Data/Scripts/BlockRenaming/BlockRenamerCore.cs:608 | a separator-free piece followed by the separator is split off whole |
| `Strings.SplitTwoPieces` | Data/Scripts/BlockRenaming/BlockRenamerCore.cs:608 | two separator-free pieces, each followed by the separator, come out as the first two parts |
| `Strings.SplitPrefix` | Data/Scripts/BlockRenaming/BlockRenamerCore.cs:608 | separator-free text in front joins the first part of what follows |
| `Strings.UpTo` | Data/Scripts/BlockRenaming/BlockRenamerCore.cs:613 | the first part is a separator-free prefix of the input, and the whole input when it has no separator |
| `Strings.UpToStops` | Data/Scripts/BlockRenaming/BlockRenamerCore.cs:608 | what follows a text holding the separator does not change the first part |
| `Strings.UpToAfterPlain` | Data/Scripts/BlockRenaming/BlockRenamerCore.cs:608 | separator-free text in front becomes part of the first part |
| `Strings.ReplaceAllAbsent` | Data/Scripts/BlockRenaming/BlockRenamerCore.cs:701 | `Replace` of a pattern that does not occur changes nothing |
| `Strings.Contains` | Data/Scripts/BlockRenaming/BlockRenamerCore.cs:700 | definition: ordinal `Contains`; ContainsAfter and NoBraceNoPlaceholder state its properties |
| `Strings.ReplaceAll` | Data/Scripts/BlockRenaming/BlockRenamerCore.cs:701 | definition: ordinal `Replace`, left to right without overlap; ReplaceAllJoin and ReplacePlaceholderJoin tie it to the Join reference |
| `Strings.ReplaceAllInserts` | Data/Scripts/BlockRenaming/BlockRenamerCore.cs:700-701 | when the pattern occurs, the replacement character appears in the result |
| `Strings.ReplaceAllCopies` | Data/Scripts/BlockRenaming/BlockRenamerCore.cs:701 | up to the first replacement character it shows, the result copies the input |
| `Strings.ReplaceAllRemoves` | Data/Scripts/BlockRenaming/BlockRenamerCore.cs:701 | replacing with a character foreign to the pattern leaves no occurrence of the pattern |
| `Strings.ContainsAfter` | Data/Scripts/BlockRenaming/BlockRenamerCore.cs:700 | an occurrence stays an occurrence after text is put in front |
| `Strings.ReplaceAllAfterPlain` | Data/Scripts/BlockRenaming/BlockRenamerCore.cs:701 | text without the pattern's first character is copied unchanged ahead of the replaced rest |
| `Strings.ReplaceAllJoin` | Data/Scripts/BlockRenaming/BlockRenamerCore.cs:701 | against a reference definition: pieces joined by the pattern, none holding its first character, are replaced into the same pieces joined by the replacement |
| `Strings.SplitJoin` | Data/Scripts/BlockRenaming/BlockRenamerCore.cs:608 | `Split(sep)` undoes joining separator-free pieces with `sep` |
| `Thrusters.FaceLetter` | Data/Scripts/BlockRenaming/BlockRenamerCore.cs:684-698 | the letter is the initial of the direction opposite the thrust (Forward gives B, Up gives D, ...), 'X' for any other vector, and never a character of "{0}" |
| `Thrusters.FaceLetterInjective` | Data/Scripts/BlockRenaming/BlockRenamerCore.cs:684-698 | different directions get different letters |
| `Thrusters.ThrusterName` | Data/Scripts/BlockRenaming/BlockRenamerCore.cs:700-702 | the letter is always in the new name; a template with "{0}" keeps no "{0}"; a template without it becomes `template + " " + letter` (what any template with "{0}" becomes is stated by ThrusterNameSubstitutes and ThrusterNameJoin) |
| `Thrusters.ThrusterNameSubstitutes` | Data/Scripts/BlockRenaming/BlockRenamerCore.cs:700-701 | a template `a + "{0}" + b`, with no "{0}" in `a` or `b`, becomes `a + letter + b`: only the placeholder is replaced |
| `Thrusters.ThrusterNameJoin` | Data/Scripts/BlockRenaming/BlockRenamerCore.cs:700-701 | every template with "{0}" is its "{0}"-free pieces joined by "{0}", and becomes the same pieces joined by the letter |
| `Thrusters.NoBraceNoPlaceholder` | Data/Scripts/BlockRenaming/BlockRenamerCore.cs:700 | text without '{' holds no "{0}" |
| `Thrusters.ReplaceBeforePlaceholder` | Data/Scripts/BlockRenaming/BlockRenamerCore.cs:701 | "{0}" does not overlap itself: text without "{0}" in front of one is copied, and that "{0}" is replaced |
| `Thrusters.ReplacePlaceholderJoin` | Data/Scripts/BlockRenaming/BlockRenamerCore.cs:701 | `Replace("{0}", rep)` of "{0}"-free pieces joined by "{0}" gives the pieces joined by `rep` |
| `Thrusters.BraceTemplateExample` | Data/Scripts/BlockRenaming/BlockRenamerCore.cs:700-702 | "T{x {0}" with Forward gives "T{x B": a '{' outside the placeholder is kept |
| `Thrusters.ThrusterRename` | Data/Scripts/BlockRenaming/BlockRenamerCore.cs:679-682 | a block that is not a thruster keeps its name; a thruster gets ThrusterName of its direction |
| `Thrusters.DefaultTemplateExample` | Data/Scripts/BlockRenaming/BlockRenamerCore.cs:59 | the default template "Thruster {0}" names a forward-thrusting thruster "Thruster B" |
| `Rename.Renamed` | Data/Scripts/BlockRenaming/BlockRenamerCore.cs:630-673 | an unknown tag leaves the name unchanged; REPLACE gives the value; PREFIX and NUMPREFIX give `value + name`; SUFFIX and NUM give `name + value`; RESET gives the display name; THRUST renames thrusters only; REGEX leaves the name unchanged unless the value splits on '#' into exactly two parts, and also when the engine throws |
| `Rename.RegexRequestGuard` | Data/Scripts/BlockRenaming/BlockRenamerCore.cs:655-670 | a REGEX request built as `find#replacement` (line 457) reaches the engine with exactly `find` and `replacement` when neither holds '#', and is ignored otherwise |
| `Rename.RegexRequestValue` | Data/Scripts/BlockRenaming/BlockRenamerCore.cs:457 | definition: `find#replacement`; RegexRequestGuard states when it reaches the engine as the two parts |
| `Wire.Parse` | Data/Scripts/BlockRenaming/BlockRenamerCore.cs:607-620 | a message is accepted exactly when it holds at least two '|' and its first field is a `long`; the id is that `long`, the action and value are the second and third fields, and anything after a third '|' is dropped |
| `Wire.SplitEncode` | Data/Scripts/BlockRenaming/BlockRenamerCore.cs:595-608 | for an action without '|', an encoded message splits into the id text, the action and the parts of the value |
| `Wire.Encode` | Data/Scripts/BlockRenaming/BlockRenamerCore.cs:595 | definition: `id|action|value`; its partners are Parse through ParseEncode, ParseEncodeTruncates and SplitEncode |
| `Wire.ParseEncodeTruncates` | Data/Scripts/BlockRenaming/BlockRenamerCore.cs:595-620 | for an action without '|', parsing the encoded message gives the same id and action, and the value up to its first '|' |
| `Wire.ParseEncode` | Data/Scripts/BlockRenaming/BlockRenamerCore.cs:595-620 | round trip: when action and value hold no '|', parsing the encoded message gives back the same id, action and value |
| `Wire.SeparatorNotInIntToString` | Data/Scripts/BlockRenaming/BlockRenamerCore.cs:595 | an entity id written as text holds no '|' |
| `Blocks.Block.ApplyAction` | Data/Scripts/BlockRenaming/BlockRenamerCore.cs:630-673 | CustomName becomes the dispatcher's new name |
| `Blocks.SendNetworkRequest` | Data/Scripts/BlockRenaming/BlockRenamerCore.cs:583-597 | on the server the block is renamed and nothing is sent; on a client the block is unchanged and `id|action|value` is sent |
| `Blocks.Route` | Data/Scripts/BlockRenaming/BlockRenamerCore.cs:601-618 | only a server acts, only on a message that parses, and only when the id names a known terminal block |
| `Blocks.OnMessageReceived` | Data/Scripts/BlockRenaming/BlockRenamerCore.cs:601-626 | the addressed block, if any, gets the dispatcher's new name for the parsed request; every other block keeps its name |
| `Blocks.ServerReceivesRequest` | Data/Scripts/BlockRenaming/BlockRenamerCore.cs:588-620 | a request without '|' in action or value, for a known block, reaches the server unchanged, so the network path renames like the direct path |
| `Blocks.FieldSeparatorNotInNumber` | Data/Scripts/BlockRenaming/BlockRenamerCore.cs:562-564 | a formatted counter holds no '|' |
| `Blocks.NumberingRequestTravels` | Data/Scripts/BlockRenaming/BlockRenamerCore.cs:566-620 | a numbering request whose separator holds no '|' is parsed back unchanged on the server |
| `Blocks.RegexRequestTravels` | Data/Scripts/BlockRenaming/BlockRenamerCore.cs:595-620 | a REGEX request (line 457) whose pattern and replacement hold no '|' is parsed back unchanged on the server |
| `Blocks.RegexRequestCut` | Data/Scripts/BlockRenaming/BlockRenamerCore.cs:595-620 | a REGEX request reaches the server with its value cut at the first '|' |
| `Blocks.RegexAlternationIgnored` | Data/Scripts/BlockRenaming/BlockRenamerCore.cs:595-620 | a pattern holding '|' and no '#' leaves the name unchanged on the network path, while the direct path passes the whole pattern to the regex engine |
| `Blocks.RegexReplacementCut` | Data/Scripts/BlockRenaming/BlockRenamerCore.cs:595-620 | for a '|'-free, '#'-free pattern, the network path renames with the replacement cut at its first '|', the direct path with the whole replacement |
| `Blocks.ProcessNumbering` | Data/Scripts/BlockRenaming/BlockRenamerCore.cs:508-570 | the counter step of NextNumber for the block's grid or type; on the server the formatted number and separator end up in front of (NUMPREFIX) or behind (NUM) the old name; on a client the name is unchanged and the request is sent |

## Left out

- Widget construction and injection (CreateControlList, CreateThrusterControlList, AddControlsToBlocks). These are host UI factories. Their textbox values are parameters of the modelled operations.
- Lifecycle (LoadData, UnloadData, UpdateBeforeSimulation): handler registration, update-order changes and clearing state at unload. UnloadData clears only the two counter maps and the per-block text. GroupByBlockType, AutoContinueNumbering and the thruster template keep their values into a later session while the assembly stays loaded. The model starts from the static initialisers only.
- Transport: UTF-8 encoding and decoding, SendMessageToServer, the network channel id and the catch that logs exceptions in OnMessageReceived. Nothing in the modelled parse throws.
- Regular expressions: `Regex.Replace` is a parameter of the dispatcher. Only the '#' guard and the swallowed exception (a None result) are modelled.
- GetEntityById and the `as IMyTerminalBlock` cast: the entity lookup is a map that holds only terminal blocks.
- `char.IsDigit` also accepts non-ASCII decimal digits. The model takes ASCII digits only. For the source, such digits count toward the width while `int.TryParse` rejects them, giving start number 0.
- `FormatD`: formats wider than the runtime's "D" precision limit are not modelled.
- `Decimal.ParseInteger`: culture-specific sign symbols and the trailing NUL characters that .NET number parsing tolerates are not modelled. The invariant-culture '+' and '-' and the white space U+0009 to U+000D and U+0020 are.
- The GlobalThrusterTemplate textbox is not modelled as state. The template is the value of the THRUST request.
- `Blocks.ProcessNumbering` and `Numbering.Counters.Number` expose the handed-out counter as a ghost out-parameter. The source never returns it.

On the wire, a request value is cut at its first '|' (`Wire.ParseEncodeTruncates`). The direct path on a server keeps the value whole. The two paths agree whenever the action and value hold no '|' (`Blocks.ServerReceivesRequest`). For REGEX the cut is visible. A pattern using alternation (`A|B#C`) is ignored on a dedicated server (`Blocks.RegexAlternationIgnored`). A replacement holding '|' (`A#x|y`) renames with `x` only (`Blocks.RegexReplacementCut`). On the direct path both are applied in full.
