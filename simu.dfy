/** `CEquip` of the data simulator (BCDataSimu): an equipment that makes up
  * its own values, and takes set-point commands that set them, add events
  * or take its communication down.
  *
  * The host framework (`CEquipBase`, the station database, the data
  * center) is not part of this model: what it answers is passed in. Times
  * are milliseconds on one clock, passed in as `now`. */
module Simulator {
  import opened Wrappers
  import opened Text

  const DefaultSleepTime := 500
  const SetYcYxValueInstruction := "SETYCYXVALUE"
  const AddEventInstruction := "ADDEVENT"
  const SetCommStateInstruction := "SETCOMMSTATE"
  /** The length of the `yyyyMMddHHmmss` time stamp a YC value may start with. */
  const DateTimePrefixLength := 14

  /** What `GetYX` reads of a YX row. */
  datatype YxRow = YxRow(inversion: bool, yxNo: int, levelR: int, levelD: int)

  /** What the simulator reads of its `EquipItem`: the communication
    * parameter and the numbers of its YC items. */
  datatype EquipItem = EquipItem(communicationParam: Option<string>, ycItems: set<int>)

  /** An `EquipEvent` of level `Info`. */
  datatype EquipEvent = EquipEvent(text: string, time: int)

  /** `CommunicationState.fail`, or what the host's own `GetData` answers. */
  datatype CommunicationState = Fail | HostState(name: string)

  /** The value a missing YX gets: a high level (`level_r >= level_d`) is
    * `false`, a low one `true`, and `inversion` swaps the two. */
  function DefaultYX(r: YxRow): bool {
    (r.levelR >= r.levelD) == r.inversion
  }

  // ----- the sleep time -----

  predicate IsBlank(s: Option<string>) {
    s.None? || forall i :: 0 <= i < |s.value| ==> IsWhite(s.value[i])
  }

  /** The sleep time a communication parameter gives: 500 ms for a blank
    * one; otherwise what `int.TryParse` makes of it, which is 0 when it does
    * not parse. */
  function SleepTimeOf(param: Option<string>): (t: int)
    ensures IsBlank(param) ==> t == DefaultSleepTime
  {
    if IsBlank(param) then DefaultSleepTime
    else match ParseInt(param.value)
      case Some(v) => v
      case None => 0
  }

  /** An integer written as text is taken as it is; text that is neither
    * blank nor an integer gives 0, not the default. */
  lemma SleepTimeOfText(n: int, s: string)
    requires IntMin <= n <= IntMax
    ensures SleepTimeOf(Some(DecimalString(n))) == n
    ensures !IsBlank(Some(s)) && ParseInt(s).None? ==> SleepTimeOf(Some(s)) == 0
  {
    ParseDecimalString(n, IntMin, IntMax);
    var t := DecimalString(n);
    assert !IsWhite(t[|t| - 1]);
  }

  // ----- the commands -----

  /** What a set-point command does. */
  datatype Effect =
    | Rejected
    | SetYc(number: int)
    | SetYx(number: int, on: bool)
    | AddEvent(text: string)
    | CommOff
    | CommKept

  /** What `HandleSetYCValue` does: the lookup of the YC item throws for an
    * unknown number, and a value that starts with a 14-character time stamp
    * and a colon throws when the stamp is not a valid time (`parsesDate`).
    * The value it stores is not modelled. */
  function YcEffect(item: EquipItem, number: int, value: string, parsesDate: string -> bool): Effect {
    if number !in item.ycItems then Rejected
    else if ':' in value && IndexOf(value, ':') == DateTimePrefixLength && !parsesDate(value[..DateTimePrefixLength]) then Rejected
    else SetYc(number)
  }

  /** `HandleSetYCYXValue`: the minor instruction is a letter, any one
    * character and a positive number: `C` (or `c`) sets that YC and `X` (or
    * `x`) that YX; the value must not be empty, and the equipment must be
    * known to the data center. A YX is set on exactly when the value is an
    * integer above 0; any other value throws. */
  function YcYxEffect(minor: string, value: Option<string>, item: Option<EquipItem>, parsesDate: string -> bool): Effect {
    if |minor| <= 2 || value.None? || |value.value| == 0 then Rejected
    else match ParseInt(minor[2..])
      case None => Rejected
      case Some(number) =>
        if number <= 0 || item.None? then Rejected
        else
          var firstChar := UpperChar(minor[0]);
          if firstChar == 'C' then YcEffect(item.value, number, value.value, parsesDate)
          else if firstChar == 'X' then
            match ParseInt(value.value)
            case None => Rejected
            case Some(v) => SetYx(number, v > 0)
          else Rejected
  }

  /** `SetParm`: a blank main or minor instruction, or an unknown main
    * instruction (compared in upper case), is rejected; the three known ones
    * go to their handlers, and a handler that throws rejects the command. */
  function Dispatch(mainInstruct: Option<string>, minorInstruct: Option<string>, value: Option<string>,
                    item: Option<EquipItem>, parsesDate: string -> bool): Effect
  {
    if mainInstruct.None? || |mainInstruct.value| == 0 || minorInstruct.None? || |minorInstruct.value| == 0 then Rejected
    else
      var main := ToUpper(mainInstruct.value);
      if main == SetYcYxValueInstruction then YcYxEffect(minorInstruct.value, value, item, parsesDate)
      else if main == AddEventInstruction then AddEvent(minorInstruct.value)
      else if main == SetCommStateInstruction then (if Trim(minorInstruct.value) == "0" then CommOff else CommKept)
      else Rejected
  }

  /** A well-formed YX command is accepted for its number, in either case of
    * its letter and whatever its second character: it sets the YX on
    * exactly when the value is above 0. */
  lemma SetYxAccepted(letter: char, second: char, number: int, v: int, item: EquipItem, parsesDate: string -> bool)
    requires letter == 'X' || letter == 'x'
    requires 0 < number <= IntMax && IntMin <= v <= IntMax
    ensures YcYxEffect([letter, second] + DecimalString(number), Some(DecimalString(v)), Some(item), parsesDate) ==
            SetYx(number, v > 0)
  {
    var minor := [letter, second] + DecimalString(number);
    assert minor[2..] == DecimalString(number);
    ParseDecimalString(number, IntMin, IntMax);
    ParseDecimalString(v, IntMin, IntMax);
  }

  /** A well-formed YC command with a plain number as its value is accepted
    * exactly when the equipment has that YC item. */
  lemma SetYcAccepted(letter: char, second: char, number: int, v: int, item: EquipItem, parsesDate: string -> bool)
    requires letter == 'C' || letter == 'c'
    requires 0 < number <= IntMax
    ensures YcYxEffect([letter, second] + DecimalString(number), Some(DecimalString(v)), Some(item), parsesDate) ==
            if number in item.ycItems then SetYc(number) else Rejected
  {
    var minor := [letter, second] + DecimalString(number);
    assert minor[2..] == DecimalString(number);
    ParseDecimalString(number, IntMin, IntMax);
    DecimalStringChars(v, ':');
  }

  /** A minor instruction too short to hold a number, an empty value or a
    * number that is not positive is always rejected, whatever the rest. */
  lemma YcYxRejects(minor: string, value: Option<string>, item: Option<EquipItem>, parsesDate: string -> bool)
    requires |minor| <= 2 || value.None? || value == Some("") ||
             (ParseInt(minor[2..]).Some? && ParseInt(minor[2..]).value <= 0)
    ensures YcYxEffect(minor, value, item, parsesDate) == Rejected
  {
  }

  /** Only `SETCOMMSTATE` with a minor instruction of `0` takes the
    * communication down, and no command brings it back up. */
  lemma CommOffOnlyByZero(mainInstruct: Option<string>, minorInstruct: Option<string>, value: Option<string>,
                          item: Option<EquipItem>, parsesDate: string -> bool)
    ensures Dispatch(mainInstruct, minorInstruct, value, item, parsesDate) == CommOff <==>
              mainInstruct.Some? && ToUpper(mainInstruct.value) == SetCommStateInstruction &&
              minorInstruct.Some? && Trim(minorInstruct.value) == "0"
  {
    InstructionsDistinct();
  }

  lemma InstructionsDistinct()
    ensures SetCommStateInstruction != SetYcYxValueInstruction
    ensures SetCommStateInstruction != AddEventInstruction
  {
    assert SetCommStateInstruction[3] != SetYcYxValueInstruction[3];
    assert |SetCommStateInstruction| != |AddEventInstruction|;
  }

  class CEquip {
    var firstEnter: bool
    var commState: bool
    var sleepTime: int
    /** `YXResults`: the YX values by number. */
    var yxResults: map<int, bool>
    /** `EquipEventList`. */
    var equipEventList: seq<EquipEvent>

    /** A new simulator: first entry, communication up, 500 ms sleep, no YX
      * and no event. */
    constructor ()
      ensures firstEnter && commState && sleepTime == DefaultSleepTime && yxResults == map[] && equipEventList == []
    {
      firstEnter := true;
      commState := true;
      sleepTime := DefaultSleepTime;
      yxResults := map[];
      equipEventList := [];
    }

    /** `CheckCommunicationState`. */
    method CheckCommunicationState() returns (up: bool)
      ensures up == commState
    {
      if !commState {
        return false;
      }
      return true;
    }

    /** `InitializeSleepTime`. */
    method InitializeSleepTime(param: Option<string>)
      modifies this`sleepTime
      ensures sleepTime == SleepTimeOf(param)
    {
      if IsBlank(param) {
        sleepTime := DefaultSleepTime;
      } else {
        match ParseInt(param.value)
        case Some(v) => sleepTime := v;
        case None => sleepTime := 0;
      }
    }

    /** `init`: fails while the communication is down or when the host's
      * own `init` (`baseInit`) fails; on the first entry or a reset it takes
      * the sleep time from the communication parameter. */
    method Init(item: EquipItem, baseInit: bool, resetFlag: bool) returns (ok: bool)
      modifies this`sleepTime, this`firstEnter
      ensures ok <==> commState && baseInit
      ensures ok && (resetFlag || old(firstEnter)) ==> sleepTime == SleepTimeOf(item.communicationParam) && !firstEnter
      ensures !(ok && (resetFlag || old(firstEnter))) ==> sleepTime == old(sleepTime) && firstEnter == old(firstEnter)
    {
      var up := CheckCommunicationState();
      if !up {
        return false;
      }
      if !baseInit {
        return false;
      }
      if resetFlag || firstEnter {
        InitializeSleepTime(item.communicationParam);
        firstEnter := false;
      }
      return true;
    }

    /** `GetData`: `fail` while the communication is down, otherwise what
      * the host's `GetData` answers. */
    method GetData(baseState: CommunicationState) returns (state: CommunicationState)
      ensures !commState ==> state == Fail
      ensures commState ==> state == baseState
    {
      var up := CheckCommunicationState();
      if !up {
        return Fail;
      }
      return baseState;
    }

    /** `GetYX`: a YX that already has a value keeps it (either the method
      * returns early or it writes the same value back); a missing one gets
      * its default. A missing row is refused. */
    method GetYX(r: Option<YxRow>) returns (ok: bool)
      modifies this`yxResults
      ensures ok <==> r.Some?
      ensures r.None? ==> yxResults == old(yxResults)
      ensures r.Some? ==> yxResults == if r.value.yxNo in old(yxResults) then old(yxResults)
                                       else old(yxResults)[r.value.yxNo := DefaultYX(r.value)]
    {
      if r.None? {
        return false;
      }
      var row := r.value;
      var inversion := row.inversion;
      var yxNo := row.yxNo;
      var isHighLevel := row.levelR >= row.levelD;
      var value: bool;
      if isHighLevel {
        if inversion {
          if yxNo in yxResults && !yxResults[yxNo] {
            return true;
          }
          value := true;
        } else {
          if yxNo in yxResults && yxResults[yxNo] {
            return true;
          }
          value := false;
        }
      } else {
        if inversion {
          if yxNo in yxResults && yxResults[yxNo] {
            return true;
          }
          value := false;
        } else {
          if yxNo in yxResults && !yxResults[yxNo] {
            return true;
          }
          value := true;
        }
      }
      yxResults := yxResults[yxNo := value];
      return true;
    }

    /** `HandleSetYXValue`: the YX is set on exactly when the value is an
      * integer above 0; any other value throws (`None`). */
    method HandleSetYXValue(number: int, value: string) returns (ok: Option<bool>)
      modifies this`yxResults
      ensures ParseInt(value).None? ==> ok.None? && yxResults == old(yxResults)
      ensures ParseInt(value).Some? ==> ok == Some(true) && yxResults == old(yxResults)[number := ParseInt(value).value > 0]
    {
      var v := ParseInt(value);
      if v.None? {
        return None;
      }
      yxResults := yxResults[number := v.value > 0];
      return Some(true);
    }

    /** `HandleSetCommState`: `0` (trimmed) takes the communication down;
      * anything else leaves it as it is. Always accepted. */
    method HandleSetCommState(minorInstruct: string) returns (ok: bool)
      modifies this`commState
      ensures ok
      ensures commState == (old(commState) && Trim(minorInstruct) != "0")
    {
      if Trim(minorInstruct) == "0" {
        commState := false;
      }
      return true;
    }

    /** `HandleAddEvent`: appends an `Info` event with the minor instruction
      * as its text. */
    method HandleAddEvent(minorInstruct: string, now: int) returns (ok: bool)
      modifies this`equipEventList
      ensures ok && equipEventList == old(equipEventList) + [EquipEvent(minorInstruct, now)]
    {
      equipEventList := equipEventList + [EquipEvent(minorInstruct, now)];
      return true;
    }

    /** `HandleSetYCYXValue`; `None` is an exception. */
    method HandleSetYCYXValue(minorInstruct: string, value: Option<string>, item: Option<EquipItem>,
                              parsesDate: string -> bool) returns (ok: Option<bool>)
      modifies this`yxResults
      ensures var e := YcYxEffect(minorInstruct, value, item, parsesDate);
              (ok == Some(true) <==> !e.Rejected?) &&
              yxResults == if e.SetYx? then old(yxResults)[e.number := e.on] else old(yxResults)
    {
      if |minorInstruct| <= 2 || value.None? || |value.value| == 0 {
        return Some(false);
      }
      var parsed := ParseInt(minorInstruct[2..]);
      if parsed.None? || parsed.value <= 0 {
        return Some(false);
      }
      var number := parsed.value;
      if item.None? {
        return Some(false);
      }
      var firstChar := UpperChar(minorInstruct[0]);
      if firstChar == 'C' {
        var e := YcEffect(item.value, number, value.value, parsesDate);
        if e.Rejected? {
          return None;
        }
        return Some(true);
      } else if firstChar == 'X' {
        ok := HandleSetYXValue(number, value.value);
        return;
      }
      return Some(false);
    }

    /** `SetParm`: carries out the command `Dispatch` reads, answering
      * whether it was accepted. The communication state only ever goes
      * down. */
    method SetParm(mainInstruct: Option<string>, minorInstruct: Option<string>, value: Option<string>,
                   item: Option<EquipItem>, parsesDate: string -> bool, now: int) returns (ok: bool)
      modifies this`yxResults, this`commState, this`equipEventList
      ensures var e := Dispatch(mainInstruct, minorInstruct, value, item, parsesDate);
              (ok <==> !e.Rejected?) &&
              yxResults == (if e.SetYx? then old(yxResults)[e.number := e.on] else old(yxResults)) &&
              commState == (old(commState) && !e.CommOff?) &&
              equipEventList == (if e.AddEvent? then old(equipEventList) + [EquipEvent(e.text, now)] else old(equipEventList))
      ensures commState ==> old(commState)
    {
      if mainInstruct.None? || |mainInstruct.value| == 0 || minorInstruct.None? || |minorInstruct.value| == 0 {
        return false;
      }
      var main := ToUpper(mainInstruct.value);
      if main == SetYcYxValueInstruction {
        var r := HandleSetYCYXValue(minorInstruct.value, value, item, parsesDate);
        return r == Some(true);
      } else if main == AddEventInstruction {
        ok := HandleAddEvent(minorInstruct.value, now);
      } else if main == SetCommStateInstruction {
        ok := HandleSetCommState(minorInstruct.value);
      } else {
        return false;
      }
    }
  }
}
