/**
 * The validation chains of the scheduled-message endpoint
 * (src/validators/messageValidator.js). The `time` pattern
 * `^([0-1]?[0-9]|2[0-3]):[0-5][0-9]$` is written out as a predicate on
 * strings; the ISO 8601 date test of the validator library is a parameter.
 */
module MessageValidator {
  import opened ValidateRequest

  predicate IsDigit(c: char) {
    '0' <= c <= '9'
  }

  /** The hour alternative `[0-1]?[0-9]|2[0-3]`. */
  predicate HourMatches(h: string) {
    (|h| == 1 && IsDigit(h[0]))
    || (|h| == 2 && '0' <= h[0] <= '1' && IsDigit(h[1]))
    || (|h| == 2 && h[0] == '2' && '0' <= h[1] <= '3')
  }

  /** The minute part `[0-5][0-9]`. */
  predicate MinuteMatches(m: string) {
    |m| == 2 && '0' <= m[0] <= '5' && IsDigit(m[1])
  }

  /**
   * The whole string matches the pattern. The minute part is always the last
   * two characters and the colon the one before them, since the hour part
   * holds no colon.
   */
  predicate IsValidTime(s: string) {
    |s| >= 4 && s[|s| - 3] == ':' && HourMatches(s[..|s| - 3]) && MinuteMatches(s[|s| - 2..])
  }

  function DigitValue(c: char): int {
    c as int - '0' as int
  }

  /** The number written by one or two decimal digits. */
  function DigitsValue(d: string): int
    requires 1 <= |d| <= 2
  {
    if |d| == 1 then DigitValue(d[0]) else 10 * DigitValue(d[0]) + DigitValue(d[1])
  }

  predicate AllDigits(d: string) {
    forall i :: 0 <= i < |d| ==> IsDigit(d[i])
  }

  /**
   * A clock reading: one or two hour digits worth 0 to 23, a colon, and two
   * minute digits worth 0 to 59.
   */
  predicate IsClockReading(s: string) {
    (|s| == 4 || |s| == 5) && s[|s| - 3] == ':'
    && AllDigits(s[..|s| - 3]) && AllDigits(s[|s| - 2..])
    && DigitsValue(s[..|s| - 3]) <= 23 && DigitsValue(s[|s| - 2..]) <= 59
  }

  /** The pattern accepts exactly the clock readings. */
  lemma TimePatternIsClockReading(s: string)
    ensures IsValidTime(s) <==> IsClockReading(s)
  {
    if |s| == 4 || |s| == 5 {
      var h := s[..|s| - 3];
      var m := s[|s| - 2..];
      if AllDigits(h) && AllDigits(m) {
        assert IsDigit(m[0]) && IsDigit(m[1]);
        assert MinuteMatches(m) <==> DigitsValue(m) <= 59;
        if |h| == 2 {
          assert IsDigit(h[0]) && IsDigit(h[1]);
          assert HourMatches(h) <==> DigitsValue(h) <= 23;
        }
      } else if !AllDigits(h) {
        assert !HourMatches(h);
      } else {
        assert !MinuteMatches(m);
      }
    }
  }

  lemma AcceptedTimes()
    ensures IsValidTime("14:30") && IsValidTime("9:05") && IsValidTime("09:05")
  {
  }

  lemma RejectedTimes()
    ensures !IsValidTime("25:99") && !IsValidTime("24:00") && !IsValidTime("23:60") && !IsValidTime("9:5")
  {
  }

  /**
   * A request-body field as the validator library sees it: absent, a JSON
   * string, or another JSON value together with the text it converts to.
   */
  datatype Value = Missing | Text(text: string) | Other(asText: string)

  /** The text the library's string validators test: an absent value reads as ''. */
  function AsText(v: Value): string {
    match v
    case Missing => ""
    case Text(t) => t
    case Other(t) => t
  }

  /** The three body fields of a message request. */
  datatype MessageBody = MessageBody(message: Value, day: Value, time: Value)

  const MessageRequired := "Message is required"
  const MessageNotString := "Message must be a string"
  const DayRequired := "Day is required"
  const DayNotDate := "Day must be a valid date (YYYY-MM-DD)"
  const TimeRequired := "Time is required"
  const TimeNotClock := "Time must be in HH:MM format (e.g., 14:30)"

  /** One error when `failed`, none otherwise. */
  function ErrorIf(failed: bool, path: string, msg: string): seq<FieldError> {
    if failed then [FieldError(path, msg)] else []
  }

  /** The `message` chain: not empty, then a string. */
  function MessageErrors(v: Value): (r: seq<FieldError>)
    ensures r == [] <==> v.Text? && v.text != ""
    ensures AsText(v) == "" ==> r[0] == FieldError("message", MessageRequired)
    ensures v.Missing? ==> r == [FieldError("message", MessageRequired), FieldError("message", MessageNotString)]
  {
    ErrorIf(AsText(v) == "", "message", MessageRequired) + ErrorIf(!v.Text?, "message", MessageNotString)
  }

  /** The `day` chain: not empty, then an ISO 8601 date. */
  function DayErrors(v: Value, isIso8601: string -> bool): (r: seq<FieldError>)
    ensures r == [] <==> AsText(v) != "" && isIso8601(AsText(v))
    ensures AsText(v) == "" ==> r[0] == FieldError("day", DayRequired)
  {
    ErrorIf(AsText(v) == "", "day", DayRequired) + ErrorIf(!isIso8601(AsText(v)), "day", DayNotDate)
  }

  /** The `time` chain: not empty, then the clock pattern. */
  function TimeErrors(v: Value): (r: seq<FieldError>)
    ensures r == [] <==> IsValidTime(AsText(v))
    ensures AsText(v) == "" ==> r == [FieldError("time", TimeRequired), FieldError("time", TimeNotClock)]
  {
    ErrorIf(AsText(v) == "", "time", TimeRequired) + ErrorIf(!IsValidTime(AsText(v)), "time", TimeNotClock)
  }

  /**
   * `createMessageValidation` followed by `validationResult`: the chains run
   * in order and every failing check adds its message (nothing stops a chain
   * early). `isIso8601` is the library's date test.
   */
  function CreateMessageErrors(body: MessageBody, isIso8601: string -> bool): (r: seq<FieldError>)
    ensures r == [] <==>
              body.message.Text? && body.message.text != ""
              && AsText(body.day) != "" && isIso8601(AsText(body.day))
              && IsValidTime(AsText(body.time))
    ensures AsText(body.message) == "" ==> r[0] == FieldError("message", MessageRequired)
    ensures AsText(body.day) == "" ==> FieldError("day", DayRequired) in r
    ensures AsText(body.time) == "" ==> FieldError("time", TimeRequired) in r
  {
    var m := MessageErrors(body.message);
    var d := DayErrors(body.day, isIso8601);
    var t := TimeErrors(body.time);
    assert AsText(body.day) == "" ==> d[0] in m + d + t by {
      if AsText(body.day) == "" {
        assert (m + d + t)[|m|] == d[0];
      }
    }
    assert AsText(body.time) == "" ==> t[0] in m + d + t by {
      if AsText(body.time) == "" {
        assert (m + d + t)[|m| + |d|] == t[0];
      }
    }
    m + d + t
  }

  /**
   * Through the gate: a well-formed body reaches the handler, and any other
   * body is answered 400 with one message per failing check.
   */
  lemma MessageRequestGate(body: MessageBody, isIso8601: string -> bool)
    ensures var errs := CreateMessageErrors(body, isIso8601);
            Validate(errs).Next? <==>
              body.message.Text? && body.message.text != ""
              && AsText(body.day) != "" && isIso8601(AsText(body.day)) && IsValidTime(AsText(body.time))
    ensures AsText(body.time) == "25:99" ==> Validate(CreateMessageErrors(body, isIso8601)).Respond?
  {
    RejectedTimes();
  }
}
