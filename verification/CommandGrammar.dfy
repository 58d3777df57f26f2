/**
 The control requests the daemon accepts, told by their lines: which command a first line asks for, what a START must
 look like, and what each of its options means.
 */
module CommandGrammar {
  import opened Bytes
  import opened StreamSource
  import opened StartCommand
  import Nv21Geometry

  // ----- The first line decides the command

  /** The text before the first newline, or all of a request without one. */
  predicate IsFirstLine(request: string, line: string)
  {
    OneLine(line) && (request == line || line + "\n" <= request)
  }

  lemma FirstLineIs(request: string, line: string)
    requires request != "" && IsFirstLine(request, line)
    ensures GetLine(request).Line? && GetLine(request).text == StripCr(line)
  {
    hide StripCr;
    if request == line {
      LineEndOfAll(line, 0);
      assert line[..|line|] == line;
    } else {
      var rest := request[|line| + 1..];
      assert request == line + ("\n" + rest);
      GetLineOf(line, rest);
    }
  }

  lemma {:induction false} LineEndOfAll(line: string, from: nat)
    requires OneLine(line) && from <= |line|
    ensures LineEnd(line, from) == |line|
    decreases |line| - from
  {
    if from == |line| {
    } else {
      LineEndOfAll(line, from + 1);
    }
  }

  lemma {:induction false} ReadOptionsFailure(text: string, values: map<string, string>)
    ensures ReadOptions(text, values).Failure? ==>
              ReadOptions(text, values).error in {NotTerminated, BadOption, DuplicateOption}
    decreases |text|
  {
    hide GetLine;
    ReadOptionsStep(text, values);
    var next := GetLine(text);
    if next.Nothing? {
    } else if next.text != "." && AddOption(next.text, values).Success? {
      ReadOptionsFailure(next.rest, AddOption(next.text, values).value);
    }
  }

  /** What follows a START line never makes it another command, nor an unknown one. */
  lemma StartStaysStart(text: string)
    ensures ParseStart(text).Success? ==> ParseStart(text).value.Start?
    ensures ParseStart(text).Failure? ==> ParseStart(text).error != UnknownCommand && ParseStart(text).error != BadSize
  {
    hide ReadOptions, ParseStreamSourceUrl, IntOption, BoolOption;
    ReadOptionsFailure(text, map[]);
  }

  /** Which command a request is, for every first line, with or without a carriage return. */
  lemma FirstLineDecides(request: string, line: string)
    requires request != "" && |request| <= 16 * 1024 && IsFirstLine(request, line)
    ensures Parse(request) == Success(Stop) <==> line == "STOP" || line == "STOP\r"
    ensures Parse(request) == Success(Status) <==> line == "STATUS" || line == "STATUS\r"
    ensures Parse(request) == Failure(UnknownCommand)
       <==> && line != "STOP" && line != "STOP\r" && line != "STATUS" && line != "STATUS\r"
            && line != "START" && line != "START\r"
    ensures Parse(request).Success? && Parse(request).value.Start? ==> line == "START" || line == "START\r"
    ensures Parse(request) != Failure(BadSize)
  {
    hide GetLine, ParseStart;
    FirstLineIs(request, line);
    StartStaysStart(GetLine(request).rest);
    StrippedIs(line, "STOP");
    StrippedIs(line, "STATUS");
    StrippedIs(line, "START");
  }

  /** A request is refused for its size iff it is empty or longer than 16 KiB. */
  lemma SizeDecides(request: string)
    ensures Parse(request) == Failure(BadSize) <==> request == "" || |request| > 16 * 1024
  {
    hide GetLine, ParseStart;
    if request != "" {
      FirstLine(request);
      StartStaysStart(GetLine(request).rest);
    }
  }

  lemma StrippedIs(line: string, word: string)
    requires word != "" && word[|word| - 1] != '\r'
    ensures StripCr(line) == word <==> line == word || line == word + "\r"
  {
    if line == word + "\r" {
      assert line[..|line| - 1] == word;
    }
    if line != "" && line[|line| - 1] == '\r' {
      assert line == line[..|line| - 1] + "\r";
    }
  }

  // ----- The controller's other two requests

  const STOP_REQUEST: string := "STOP\n.\n"

  const STATUS_REQUEST: string := "STATUS\n.\n"

  /** Each request of the controller is parsed as the command it was printed for. */
  lemma ControllerRequests()
    ensures Parse(STOP_REQUEST) == Success(Stop)
    ensures Parse(STATUS_REQUEST) == Success(Status)
  {
    hide Parse;
    assert "STOP" + "\n" <= STOP_REQUEST && "STATUS" + "\n" <= STATUS_REQUEST;
    FirstLineDecides(STOP_REQUEST, "STOP");
    FirstLineDecides(STATUS_REQUEST, "STATUS");
  }

  // ----- A START needs its dot

  /** Option lines, each with its newline, then a dot, possibly with a carriage return, and the end or a newline. */
  predicate Terminated(text: string, lines: seq<string>, dot: string, tail: string)
  {
    && text == JoinLines(lines) + (dot + tail)
    && PlainLines(lines)
    && (dot == "." || dot == ".\r")
    && (tail == "" || tail[0] == '\n')
  }

  lemma DotIsRead(dot: string, tail: string, values: map<string, string>)
    requires dot == "." || dot == ".\r"
    requires tail == "" || tail[0] == '\n'
    ensures ReadOptions(dot + tail, values) == Success(values)
  {
    hide GetLine;
    var text := dot + tail;
    assert StripCr(dot) == "." by { assert ".\r"[..1] == "."; }
    if tail == "" {
      assert text == dot;
    } else {
      assert tail == "\n" + tail[1..];
      assert dot + "\n" <= text;
    }
    FirstLineIs(text, dot);
    ReadOptionsStep(text, values);
  }

  lemma {:induction false} TerminatedIsRead(
    text: string, lines: seq<string>, dot: string, tail: string, values: map<string, string>)
    requires Terminated(text, lines, dot, tail)
    requires Fill(lines, values).Success?
    ensures ReadOptions(text, values) == Fill(lines, values)
    decreases |lines|
  {
    hide GetLine, AddOption, StripCr, JoinLines;
    JoinUnfolds(lines);
    if lines == [] {
      assert text == dot + tail;
      DotIsRead(dot, tail, values);
    } else {
      var rest := JoinLines(lines[1..]) + (dot + tail);
      assert text == lines[0] + ("\n" + rest);
      assert PlainLine(lines[0]);
      GetLineOf(lines[0], rest);
      ReadOptionsStep(text, values);
      TerminatedIsRead(rest, lines[1..], dot, tail, AddOption(StripCr(lines[0]), values).value);
    }
  }

  lemma JoinUnfolds(lines: seq<string>)
    ensures lines == [] ==> JoinLines(lines) == ""
    ensures lines != [] ==> JoinLines(lines) == lines[0] + ("\n" + JoinLines(lines[1..]))
  {
  }

  /** A line read, put back in front of what follows it. */
  lemma LineRead(text: string) returns (line: string)
    requires GetLine(text).Line?
    ensures OneLine(line) && GetLine(text).text == StripCr(line)
    ensures (text == line && GetLine(text).rest == "") || text == line + ("\n" + GetLine(text).rest)
  {
    var end := LineEnd(text, 0);
    line := text[..end];
    LineEndMeans(text, 0);
    if end < |text| {
      assert text[end..] == "\n" + text[end + 1..];
    }
  }

  lemma {:induction false} LineEndMeans(s: string, from: nat)
    requires from <= |s|
    ensures forall i :: from <= i < LineEnd(s, from) ==> s[i] != '\n'
    ensures LineEnd(s, from) < |s| ==> s[LineEnd(s, from)] == '\n'
    decreases |s| - from
  {
    if from == |s| || s[from] == '\n' {
    } else {
      LineEndMeans(s, from + 1);
    }
  }

  lemma {:induction false} ReadIsTerminated(text: string, values: map<string, string>)
    returns (lines: seq<string>, dot: string, tail: string)
    requires ReadOptions(text, values).Success?
    ensures Terminated(text, lines, dot, tail) && Fill(lines, values) == ReadOptions(text, values)
    decreases |text|
  {
    hide GetLine, AddOption, StripCr, JoinLines;
    ReadOptionsStep(text, values);
    var next := GetLine(text);
    var line := LineRead(text);
    if next.text == "." {
      lines, dot := [], line;
      tail := text[|line|..];
      DotLines(line);
      JoinUnfolds([]);
      assert text == JoinLines([]) + (dot + tail);
    } else {
      var more;
      EmptyIsNotRead(AddOption(next.text, values).value);
      more, dot, tail := ReadIsTerminated(next.rest, AddOption(next.text, values).value);
      lines := [line] + more;
      JoinUnfolds(lines);
      assert lines[1..] == more;
      assert text == (line + ("\n" + JoinLines(more))) + (dot + tail);
    }
  }

  lemma EmptyIsNotRead(values: map<string, string>)
    ensures ReadOptions("", values) == Failure(NotTerminated)
  {
  }

  lemma DotLines(line: string)
    requires StripCr(line) == "."
    ensures line == "." || line == ".\r"
  {
    StrippedIs(line, ".");
  }

  /** The options are read iff they end in a dot line of their own and fill the map. */
  lemma OptionsEndInADot(text: string, m: map<string, string>)
    ensures ReadOptions(text, map[]) == Success(m)
       <==> exists lines, dot, tail :: Terminated(text, lines, dot, tail) && Fill(lines, map[]) == Success(m)
  {
    hide ReadOptions, Fill, Terminated;
    if ReadOptions(text, map[]) == Success(m) {
      var lines, dot, tail := ReadIsTerminated(text, map[]);
      assert Terminated(text, lines, dot, tail) && Fill(lines, map[]) == Success(m);
    }
    if lines, dot, tail :| Terminated(text, lines, dot, tail) && Fill(lines, map[]) == Success(m) {
      TerminatedIsRead(text, lines, dot, tail, map[]);
    }
  }

  // ----- What each option means

  predicate NumberIs(values: map<string, string>, key: string, n: int, default: int)
  {
    if key in values then ParseInt(values[key]) == Some(n) else n == default
  }

  predicate FlagIs(values: map<string, string>, key: string, flag: bool)
  {
    if key !in values then !flag
    else values[key] in (if flag then {"1", "true"} else {"0", "false"})
  }

  predicate TextIs(values: map<string, string>, key: string, text: string, default: string)
  {
    text == if key in values then values[key] else default
  }

  /** An option sets its own field and no other; an option left out leaves the default; there are no others. */
  lemma OptionsMean(values: map<string, string>, c: Config)
    ensures Configure(values) == Success(c)
       <==> && values.Keys <= {"url", "video_device", "width", "height", "fps", "rotation", "mirror"}
            && TextIs(values, "url", c.url, "http://192.168.1.10:8888/live.mjpg")
            && TextIs(values, "video_device", c.videoDevice, "/dev/video100")
            && NumberIs(values, "width", c.width, 1280) && NumberIs(values, "height", c.height, 720)
            && NumberIs(values, "fps", c.fps, 30) && NumberIs(values, "rotation", c.rotation, 0)
            && FlagIs(values, "mirror", c.mirror)
            && c.ffmpegPath == FFMPEG_PATH
            && Runnable(c)
  {
    hide ParseInt, Validate, Runnable;
    ValidMeansRunnable(c);
    FlagTexts(values);
    ConfigureSteps(values, c);
  }

  /** What the engine can run. */
  predicate Runnable(c: Config)
  {
    && c.width == 1280 && c.height == 720 && c.fps == 30
    && c.rotation in {0, 90, 180, 270}
    && "/dev/video" <= c.videoDevice && |c.videoDevice| <= 64 && SafeText(c.videoDevice)
    && (c.url in {"push://local", "push://placeholder"}
        || (ParseStreamSourceUrl(c.url).Success?
            && c.ffmpegPath != "" && c.ffmpegPath[0] == '/' && |c.ffmpegPath| <= 512 && SafeText(c.ffmpegPath)))
  }

  lemma ValidMeansRunnable(c: Config)
    ensures Validate(c) == Success(c) <==> Runnable(c)
    ensures Validate(c).Success? ==> Validate(c) == Success(c)
  {
    hide ParseStreamSourceUrl, SafeText;
  }

  lemma FlagTexts(values: map<string, string>)
    ensures forall flag :: BoolOption(values, "mirror", false) == Some(flag) <==> FlagIs(values, "mirror", flag)
  {
  }

  lemma ConfigureSteps(values: map<string, string>, c: Config)
    ensures Configure(values) == Success(c)
       <==> && values.Keys <= KNOWN
            && TextIs(values, "url", c.url, DEFAULT.url)
            && TextIs(values, "video_device", c.videoDevice, DEFAULT.videoDevice)
            && IntOption(values, "width", 1280) == Some(c.width) && IntOption(values, "height", 720) == Some(c.height)
            && IntOption(values, "fps", 30) == Some(c.fps) && IntOption(values, "rotation", 0) == Some(c.rotation)
            && BoolOption(values, "mirror", false) == Some(c.mirror)
            && c.ffmpegPath == DEFAULT.ffmpegPath
            && Validate(c) == Success(c)
  {
    hide ParseInt, ParseBool, Validate, IntOption, BoolOption;
    ValidationKeeps(c);
    match (IntOption(values, "width", 1280), IntOption(values, "height", 720), IntOption(values, "fps", 30),
           IntOption(values, "rotation", 0), BoolOption(values, "mirror", false))
    case (Some(width), Some(height), Some(fps), Some(rotation), Some(mirror)) =>
      ValidationKeeps(Config(StringOption(values, "url", DEFAULT.url),
                             StringOption(values, "video_device", DEFAULT.videoDevice), DEFAULT.ffmpegPath,
                             width, height, fps, rotation, mirror));
    case _ =>
  }

  lemma ValidationKeeps(c: Config)
    ensures Validate(c).Success? ==> Validate(c) == Success(c)
  {
    hide ParseStreamSourceUrl, SafeText;
  }

  /** The two reserved addresses are not stream addresses. */
  lemma ReservedAreNotStreams()
    ensures ParseStreamSourceUrl(LOCAL).Failure? && ParseStreamSourceUrl(PLACEHOLDER).Failure?
  {
    hide ParseStreamSourceUrl;
    PushIsNoScheme("local");
    PushIsNoScheme("placeholder");
    assert LOCAL == "push" + ("://" + "local") && PLACEHOLDER == "push" + ("://" + "placeholder");
  }

  lemma PushIsNoScheme(after: string)
    ensures ParseStreamSourceUrl("push" + ("://" + after)).Failure?
  {
    hide FindSeparator, AuthorityEnd, SafeText;
    var url := "push" + ("://" + after);
    SeparatorOf("push", after);
    assert url[..4] == "push" && Lowercase("push") == "push";
  }

  // ----- What a number means

  function Zeros(k: nat): string
  {
    seq(k, _ => '0')
  }

  /** Digits are the decimal text of their value after some zeros. */
  lemma {:induction false} DigitsAreDecimal(d: string) returns (k: nat)
    requires d != "" && AllDigits(d)
    ensures d == Zeros(k) + Natural(DigitsValue(d))
    decreases |d|
  {
    var front, c := d[..|d| - 1], d[|d| - 1];
    var v := DigitsValue(front);
    assert d == front + [c] && DigitsValue(d) == v * 10 + DigitValue(c);
    if front == "" {
      k := 0;
      assert d == [c] && Natural(DigitsValue(d)) == [Digit(DigitValue(c))];
    } else {
      k := DigitsAreDecimal(front);
      if v == 0 {
        assert front == Zeros(k) + "0" == Zeros(k + 1);
        k := k + 1;
      } else {
        assert Natural(v * 10 + DigitValue(c)) == Natural(v) + [Digit(DigitValue(c))];
      }
    }
  }

  lemma {:induction false} ZerosCountNothing(k: nat, n: nat)
    ensures AllDigits(Zeros(k) + Natural(n)) && DigitsValue(Zeros(k) + Natural(n)) == n
    decreases n
  {
    NaturalReadsBack(n);
    var s := Zeros(k) + Natural(n);
    if n < 10 {
      assert s[..|s| - 1] == Zeros(k);
      ZerosAreZero(k);
    } else {
      assert s[..|s| - 1] == Zeros(k) + Natural(n / 10);
      ZerosCountNothing(k, n / 10);
    }
  }

  lemma {:induction false} ZerosAreZero(k: nat)
    ensures AllDigits(Zeros(k)) && DigitsValue(Zeros(k)) == 0
  {
    if k == 0 {
    } else {
      assert Zeros(k)[..k - 1] == Zeros(k - 1);
      ZerosAreZero(k - 1);
    }
  }

  ghost predicate Denotes(text: string, n: int)
  {
    exists k: nat :: Writes(text, n, k)
  }

  /** The decimal text with k more zeros in front; zero may have a sign. */
  predicate Writes(text: string, n: int, k: nat)
  {
    || text == (if n < 0 then "-" else "") + Zeros(k) + Natural(if n < 0 then -n else n)
    || (n == 0 && text == "-" + Zeros(k + 1))
  }

  lemma ReadIsWritten(text: string, n: int)
    requires ParseInt(text) == Some(n)
    ensures IsInt32(n) && Denotes(text, n)
  {
    hide DigitsValue, Natural, AllDigits, Zeros;
    var negative := text[0] == '-';
    var k := DigitsAreDecimal(if negative then text[1..] else text);
    if negative && n == 0 {
      ZeroTexts(k);
      assert text == "-" + Zeros(k + 1);
    } else {
      assert text == (if n < 0 then "-" else "") + Zeros(k) + Natural(if n < 0 then -n else n);
    }
    assert Writes(text, n, k);
  }

  lemma WrittenIsRead(text: string, n: int, k: nat)
    requires IsInt32(n) && Writes(text, n, k)
    ensures ParseInt(text) == Some(n)
  {
    hide DigitsValue, Natural, AllDigits, Zeros;
    var m := if n < 0 then -n else n;
    ZerosCountNothing(k, m);
    NaturalReadsBack(m);
    ZeroTexts(k);
    FirstDigit(k, m);
    if text == (if n < 0 then "-" else "") + Zeros(k) + Natural(m) {
      assert (if n < 0 then text[1..] else text) == Zeros(k) + Natural(m);
    } else {
      assert text[1..] == Zeros(k + 1);
      ZerosAreZero(k + 1);
    }
  }

  /** A text is read as a number iff it is its decimal text, possibly after zeros, and fits in 32 bits. */
  lemma NumbersMean(text: string, n: int)
    ensures ParseInt(text) == Some(n) <==> IsInt32(n) && Denotes(text, n)
  {
    hide ParseInt, Writes;
    if ParseInt(text) == Some(n) {
      ReadIsWritten(text, n);
    }
    if IsInt32(n) && Denotes(text, n) {
      var k: nat :| Writes(text, n, k);
      WrittenIsRead(text, n, k);
    }
  }

  lemma ZeroTexts(k: nat)
    ensures Zeros(k + 1) == Zeros(k) + Natural(0) && |Zeros(k + 1)| == k + 1
  {
    assert Natural(0) == "0";
  }

  lemma FirstDigit(k: nat, n: nat)
    ensures var s := Zeros(k) + Natural(n);
            s != "" && s[0] != '-'
  {
    NaturalReadsBack(n);
    if k > 0 {
      assert (Zeros(k) + Natural(n))[0] == '0';
    } else {
      assert Zeros(k) + Natural(n) == Natural(n);
    }
  }
}
