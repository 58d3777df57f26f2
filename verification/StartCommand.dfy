/** The START command: the controller's printer, and the daemon's parser and validation. */
module StartCommand {
  import opened Bytes
  import opened StreamSource
  import Nv21Geometry

  const MAX_REQUEST_BYTES: nat := 16 * 1024
  const LOCAL: string := "push://local"
  const PLACEHOLDER: string := "push://placeholder"
  const VIDEO_DEVICE: string := "/dev/video100"

  const FFMPEG_PATH: string := "/data/adb/modules" + "/vcames_root_bridge" + "/bin/ffmpeg"

  datatype Config = Config(
    url: string, videoDevice: string, ffmpegPath: string,
    width: int, height: int, fps: int, rotation: int, mirror: bool)

  const DEFAULT: Config := Config(
    "http://192.168.1.10:8888/live.mjpg", VIDEO_DEVICE, FFMPEG_PATH,
    1280, 720, 30, 0, false)

  datatype Command = Start(config: Config) | Stop | Status

  datatype CommandError =
    | BadSize | UnknownCommand | BadOption | DuplicateOption | NotTerminated
    | BadInteger(key: string) | BadBoolean(key: string) | UnknownOption
    | BadUrl(reason: UrlError) | BadFfmpegPath | BadDevice | BadGeometry | BadRotation

  // ----- Validation

  predicate AcceptsUrl(url: string)
  {
    url == LOCAL || url == PLACEHOLDER || ParseStreamSourceUrl(url).Success?
  }

  function Validate(c: Config): Result<Config, CommandError>
  {
    if c.url != LOCAL && c.url != PLACEHOLDER && ParseStreamSourceUrl(c.url).Failure? then
      Failure(BadUrl(ParseStreamSourceUrl(c.url).error))
    else if c.url != LOCAL && c.url != PLACEHOLDER
            && (c.ffmpegPath == "" || c.ffmpegPath[0] != '/' || |c.ffmpegPath| > 512 || HasControl(c.ffmpegPath)) then
      Failure(BadFfmpegPath)
    else if !("/dev/video" <= c.videoDevice) || |c.videoDevice| > 64 || HasControl(c.videoDevice) then
      Failure(BadDevice)
    else if c.width != 1280 || c.height != 720 || c.fps != 30 then Failure(BadGeometry)
    else if !Nv21Geometry.LegalRotation(c.rotation) then Failure(BadRotation)
    else Success(c)
  }

  // ----- Numbers

  predicate IsDigit(c: char) { '0' <= c <= '9' }

  predicate AllDigits(s: string)
  {
    forall i :: 0 <= i < |s| ==> IsDigit(s[i])
  }

  function DigitValue(c: char): nat
    requires IsDigit(c)
  {
    c as int - 48
  }

  function DigitsValue(s: string): nat
    requires AllDigits(s)
  {
    if s == "" then 0
    else
      DigitsValue(s[..|s| - 1]) * 10 + DigitValue(s[|s| - 1])
  }

  /** std::from_chars over the whole text: no plus sign, no spaces, no overflow. */
  function ParseInt(text: string): Option<int>
  {
    var negative := text != "" && text[0] == '-';
    var digits := if negative then text[1..] else text;
    if digits == "" || !AllDigits(digits) then None
    else
      var n: int := DigitsValue(digits);
      var value: int := if negative then -n else n;
      if IsInt32(value) then Some(value) else None
  }

  function ParseBool(text: string): Option<bool>
  {
    if text == "1" || text == "true" then Some(true)
    else if text == "0" || text == "false" then Some(false)
    else None
  }

  function Digit(n: int): char
    requires 0 <= n < 10
  {
    (n + 48) as char
  }

  function Natural(n: nat): string
  {
    if n < 10 then [Digit(n)] else Natural(n / 10) + [Digit(n % 10)]
  }

  /** The %d conversion. */
  function Decimal(n: int): string
  {
    if n < 0 then "-" + Natural(-n) else Natural(n)
  }

  lemma {:induction false} NaturalReadsBack(n: nat)
    ensures Natural(n) != "" && AllDigits(Natural(n)) && Natural(n)[0] != '-'
    ensures DigitsValue(Natural(n)) == n
  {
    if n < 10 {
      assert Natural(n)[..0] == "";
    } else {
      NaturalReadsBack(n / 10);
      var s := Natural(n);
      assert s[..|s| - 1] == Natural(n / 10);
    }
  }

  lemma ParseDecimal(n: int)
    requires IsInt32(n)
    ensures ParseInt(Decimal(n)) == Some(n)
  {
    NaturalReadsBack(if n < 0 then -n else n);
    if n < 0 {
      assert Decimal(n)[1..] == Natural(-n);
    }
  }

  // ----- Lines

  predicate OneLine(s: string)
  {
    forall i :: 0 <= i < |s| ==> s[i] != '\n'
  }

  function LineEnd(s: string, from: nat): (r: nat)
    requires from <= |s|
    ensures from <= r <= |s|
    decreases |s| - from
  {
    if from == |s| || s[from] == '\n' then from else LineEnd(s, from + 1)
  }

  datatype Read = Nothing | Line(text: string, rest: string)

  /** std::getline, then the optional carriage return is dropped. */
  function GetLine(s: string): (r: Read)
    ensures r.Line? ==> |r.rest| < |s|
  {
    if s == "" then Nothing
    else
      var end := LineEnd(s, 0);
      Line(StripCr(s[..end]), if end == |s| then "" else s[end + 1..])
  }

  function StripCr(line: string): string
  {
    if line != "" && line[|line| - 1] == '\r' then line[..|line| - 1] else line
  }

  function JoinLines(lines: seq<string>): string
  {
    if lines == [] then "" else lines[0] + ("\n" + JoinLines(lines[1..]))
  }

  lemma {:induction false} LineEndOf(line: string, rest: string, from: nat)
    requires OneLine(line) && from <= |line|
    ensures LineEnd(line + ("\n" + rest), from) == |line|
    decreases |line| - from
  {
    if from == |line| {
    } else {
      assert (line + ("\n" + rest))[from] == line[from];
      LineEndOf(line, rest, from + 1);
    }
  }

  lemma GetLineOf(line: string, rest: string)
    requires OneLine(line)
    ensures GetLine(line + ("\n" + rest)) == Line(StripCr(line), rest)
  {
    hide LineEnd, StripCr;
    LineEndOf(line, rest, 0);
    var s := line + ("\n" + rest);
    assert s[..|line|] == line && s[|line| + 1..] == rest;
  }

  // ----- Options

  function FindEquals(line: string, from: nat): (r: nat)
    requires from <= |line|
    ensures from <= r <= |line|
    ensures r < |line| ==> line[r] == '='
    ensures forall i :: from <= i < r ==> line[i] != '='
    decreases |line| - from
  {
    if from == |line| || line[from] == '=' then from else FindEquals(line, from + 1)
  }

  datatype Entry = Entry(key: string, value: string)

  /** The text before and after the first '='. */
  function SplitOption(line: string): Option<Entry>
  {
    var at := FindEquals(line, 0);
    if at == |line| || at == 0 then None else Some(Entry(line[..at], line[at + 1..]))
  }

  /** Adding one option line to the map. */
  function AddOption(line: string, values: map<string, string>): Result<map<string, string>, CommandError>
  {
    match SplitOption(line)
    case None => Failure(BadOption)
    case Some(e) => if e.key in values then Failure(DuplicateOption) else Success(values[e.key := e.value])
  }

  /** The option lines up to the terminating dot. */
  function ReadOptions(text: string, values: map<string, string>): Result<map<string, string>, CommandError>
    decreases |text|
  {
    match GetLine(text)
    case Nothing => Failure(NotTerminated)
    case Line(line, rest) =>
      if line == "." then Success(values)
      else
        match AddOption(line, values)
        case Failure(error) => Failure(error)
        case Success(more) => ReadOptions(rest, more)
  }

  const KNOWN: set<string> := {"url", "video_device", "width", "height", "fps", "rotation", "mirror"}

  function StringOption(values: map<string, string>, key: string, default: string): string
  {
    if key in values then values[key] else default
  }

  function IntOption(values: map<string, string>, key: string, default: int): Option<int>
  {
    if key in values then ParseInt(values[key]) else Some(default)
  }

  function BoolOption(values: map<string, string>, key: string, default: bool): Option<bool>
  {
    if key in values then ParseBool(values[key]) else Some(default)
  }

  /** The configuration a set of options stands for; only the map matters, not the order of its lines. */
  function Configure(values: map<string, string>): Result<Config, CommandError>
  {
    var url := StringOption(values, "url", DEFAULT.url);
    var device := StringOption(values, "video_device", DEFAULT.videoDevice);
    match IntOption(values, "width", DEFAULT.width)
    case None => Failure(BadInteger("width"))
    case Some(width) =>
    match IntOption(values, "height", DEFAULT.height)
    case None => Failure(BadInteger("height"))
    case Some(height) =>
    match IntOption(values, "fps", DEFAULT.fps)
    case None => Failure(BadInteger("fps"))
    case Some(fps) =>
    match IntOption(values, "rotation", DEFAULT.rotation)
    case None => Failure(BadInteger("rotation"))
    case Some(rotation) =>
    match BoolOption(values, "mirror", DEFAULT.mirror)
    case None => Failure(BadBoolean("mirror"))
    case Some(mirror) =>
      if !(values.Keys <= KNOWN) then Failure(UnknownOption)
      else Validate(Config(url, device, DEFAULT.ffmpegPath, width, height, fps, rotation, mirror))
  }

  function ParseStart(text: string): Result<Command, CommandError>
  {
    match ReadOptions(text, map[])
    case Failure(error) => Failure(error)
    case Success(values) =>
      match Configure(values)
      case Failure(error) => Failure(error)
      case Success(config) => Success(Start(config))
  }

  function Parse(request: string): Result<Command, CommandError>
  {
    if request == "" || |request| > MAX_REQUEST_BYTES then Failure(BadSize)
    else
      var Line(line, rest) := GetLine(request);
      if line == "STOP" then Success(Stop)
      else if line == "STATUS" then Success(Status)
      else if line != "START" then Failure(UnknownCommand)
      else ParseStart(rest)
  }

  /** The program's loop over the option lines. */
  method ParseCommand(request: string) returns (r: Result<Command, CommandError>)
    ensures r == Parse(request)
  {
    hide GetLine, AddOption, Configure, ReadOptions;
    if request == "" || |request| > MAX_REQUEST_BYTES {
      return Failure(BadSize);
    }
    FirstLine(request);
    var first := GetLine(request);
    var line, rest := first.text, first.rest;
    if line == "STOP" {
      return Success(Stop);
    }
    if line == "STATUS" {
      return Success(Status);
    }
    if line != "START" {
      return Failure(UnknownCommand);
    }
    var values: map<string, string> := map[];
    ghost var options := rest;
    var terminated := false;
    var next := GetLine(rest);
    while next.Line? && !terminated
      invariant !terminated ==> next == GetLine(rest) && ReadOptions(rest, values) == ReadOptions(options, map[])
      invariant terminated ==> ReadOptions(options, map[]) == Success(values)
      decreases |rest|, !terminated
    {
      ReadOptionsStep(rest, values);
      line := next.text;
      if line == "." {
        terminated := true;
      } else {
        var added := AddOption(line, values);
        if added.Failure? {
          return Failure(added.error);
        }
        values, rest := added.value, next.rest;
        next := GetLine(rest);
      }
    }
    if !terminated {
      ReadOptionsStep(rest, values);
      return Failure(NotTerminated);
    }
    var config := Configure(values);
    if config.Failure? {
      return Failure(config.error);
    }
    return Success(Start(config.value));
  }

  lemma FirstLine(request: string)
    requires request != ""
    ensures GetLine(request).Line?
  {
  }

  lemma ReadOptionsStep(text: string, values: map<string, string>)
    ensures var next := GetLine(text);
            ReadOptions(text, values)
            == if next.Nothing? then Failure(NotTerminated)
               else if next.text == "." then Success(values)
               else
                 var added := AddOption(next.text, values);
                 if added.Failure? then Failure(added.error) else ReadOptions(next.rest, added.value)
  {
    hide GetLine, AddOption;
  }

  // ----- The controller's side

  /** The controller's configuration; geometry is fixed there. */
  datatype VCamConfig = VCamConfig(url: string, rotation: int, mirror: bool)
  {
    function Options(): seq<Entry>
    {
      [Entry("url", url),
       Entry("video_device", VIDEO_DEVICE),
       Entry("width", Decimal(1280)),
       Entry("height", Decimal(720)),
       Entry("fps", Decimal(30)),
       Entry("rotation", Decimal(rotation)),
       Entry("mirror", Decimal(if mirror then 1 else 0))]
    }

    function ToStartCommand(): string
    {
      Request(PrintOptions(Options()))
    }
  }

  function PrintOptions(options: seq<Entry>): seq<string>
  {
    if options == [] then [] else [options[0].key + "=" + options[0].value] + PrintOptions(options[1..])
  }

  function NormalizeRotation(rotation: int): int
  {
    if rotation == 90 || rotation == 180 || rotation == 270 then rotation else 0
  }

  /** A START request with the given option lines. */
  function Request(lines: seq<string>): string
  {
    JoinLines(["START"] + lines + ["."])
  }

  // ----- Option lines, read in order

  predicate PlainLine(line: string)
  {
    OneLine(line) && StripCr(line) != "."
  }

  predicate PlainLines(lines: seq<string>)
  {
    forall l :: l in lines ==> PlainLine(l)
  }

  function Fill(lines: seq<string>, values: map<string, string>): Result<map<string, string>, CommandError>
  {
    if lines == [] then Success(values)
    else
      match AddOption(StripCr(lines[0]), values)
      case Failure(error) => Failure(error)
      case Success(more) => Fill(lines[1..], more)
  }

  lemma {:induction false} ReadOptionsFills(lines: seq<string>, values: map<string, string>)
    requires PlainLines(lines)
    ensures ReadOptions(JoinLines(lines + ["."]), values) == Fill(lines, values)
    decreases |lines|
  {
    hide AddOption, GetLine, StripCr;
    if lines == [] {
      assert lines + ["."] == ["."];
      DotLine();
      assert JoinLines(["."]) == "." + ("\n" + JoinLines([]));
      GetLineOf(".", JoinLines([]));
      ReadOptionsStep(JoinLines(["."]), values);
    } else {
      var rest := lines[1..] + ["."];
      assert (lines + ["."])[1..] == rest && (lines + ["."])[0] == lines[0];
      assert PlainLine(lines[0]);
      GetLineOf(lines[0], JoinLines(rest));
      ReadOptionsStep(JoinLines(lines + ["."]), values);
      var added := AddOption(StripCr(lines[0]), values);
      if added.Success? {
        ReadOptionsFills(lines[1..], added.value);
      }
    }
  }

  lemma DotLine()
    ensures StripCr(".") == "." && OneLine(".")
    ensures StripCr("START") == "START" && OneLine("START")
  {
  }

  /** A request of plain option lines, told by its lines. */
  lemma ParseRequest(lines: seq<string>)
    requires PlainLines(lines) && |Request(lines)| <= MAX_REQUEST_BYTES
    ensures Parse(Request(lines))
            == match Fill(lines, map[])
               case Failure(error) => Failure(error)
               case Success(values) =>
                 match Configure(values)
                 case Failure(error) => Failure(error)
                 case Success(config) => Success(Start(config))
  {
    hide Configure, ReadOptions, Fill, GetLine, JoinLines, StripCr;
    RequestUnfolds(lines);
    DotLine();
    GetLineOf("START", JoinLines(lines + ["."]));
    ReadOptionsFills(lines, map[]);
  }

  lemma RequestUnfolds(lines: seq<string>)
    ensures Request(lines) == "START" + ("\n" + JoinLines(lines + ["."]))
  {
    assert (["START"] + lines + ["."])[1..] == lines + ["."];
  }

  // ----- The order of the option lines does not matter

  /** The same outcome; which of several errors is reported may differ. */
  predicate Agree<T(==)>(a: Result<T, CommandError>, b: Result<T, CommandError>)
  {
    (a.Success? && a == b) || (a.Failure? && b.Failure?)
  }

  lemma AddOptionsCommute(x: string, y: string, values: map<string, string>)
    ensures Agree(Fill([x, y], values), Fill([y, x], values))
  {
    hide SplitOption;
    FillTwo(x, y, values);
    FillTwo(y, x, values);
    var a, b := SplitOption(StripCr(x)), SplitOption(StripCr(y));
    if a.Some? && b.Some? && a.value.key != b.value.key {
      var k, l := a.value, b.value;
      assert values[k.key := k.value][l.key := l.value] == values[l.key := l.value][k.key := k.value];
    }
  }

  lemma FillTwo(x: string, y: string, values: map<string, string>)
    ensures var first := AddOption(StripCr(x), values);
            Fill([x, y], values) == if first.Failure? then Failure(first.error) else AddOption(StripCr(y), first.value)
  {
    hide AddOption, StripCr;
    var first := AddOption(StripCr(x), values);
    assert [x, y][1..] == [y];
    if first.Success? {
      FillOne(y, first.value);
    }
  }

  lemma FillOne(y: string, values: map<string, string>)
    ensures Fill([y], values) == AddOption(StripCr(y), values)
  {
    hide AddOption, StripCr;
    assert [y][1..] == [];
  }

  lemma {:induction false} FillAppend(a: seq<string>, b: seq<string>, values: map<string, string>)
    ensures Fill(a + b, values)
            == var first := Fill(a, values);
               if first.Failure? then Failure(first.error) else Fill(b, first.value)
    decreases |a|
  {
    hide AddOption, StripCr;
    if a == [] {
      assert a + b == b;
    } else {
      assert (a + b)[1..] == a[1..] + b;
      var added := AddOption(StripCr(a[0]), values);
      if added.Success? {
        FillAppend(a[1..], b, added.value);
      }
    }
  }

  /** Moving one line to the front changes nothing. */
  lemma {:induction false} FillMovesToFront(
    before: seq<string>, x: string, after: seq<string>, values: map<string, string>)
    ensures Agree(Fill(before + [x] + after, values), Fill([x] + before + after, values))
    decreases |before|
  {
    hide Fill;
    if before == [] {
      assert before + [x] + after == [x] + before + after;
    } else {
      var n := |before| - 1;
      var front, y := before[..n], before[n];
      assert before + [x] + after == front + ([y, x] + after);
      assert front + [x] + ([y] + after) == front + ([x, y] + after);
      FillAppend(front, [y, x] + after, values);
      FillAppend(front, [x, y] + after, values);
      var first := Fill(front, values);
      if first.Success? {
        FillAppend([y, x], after, first.value);
        FillAppend([x, y], after, first.value);
        AddOptionsCommute(x, y, first.value);
      }
      FillMovesToFront(front, x, [y] + after, values);
      assert [x] + front + ([y] + after) == [x] + before + after;
    }
  }

  /** The first line of one order is somewhere in the other. */
  lemma FindLine<T>(a: seq<T>, b: seq<T>) returns (before: seq<T>, after: seq<T>)
    requires multiset(a) == multiset(b) && a != []
    ensures b == before + [a[0]] + after
    ensures multiset(a[1..]) == multiset(before + after)
  {
    var x := a[0];
    assert x in multiset(b);
    var i :| 0 <= i < |b| && b[i] == x;
    before, after := b[..i], b[i + 1..];
    assert b == before + [x] + after;
    assert a == [x] + a[1..];
    assert multiset(a) == multiset{x} + multiset(a[1..]);
    assert multiset(b) == multiset(before) + multiset{x} + multiset(after);
    assert multiset(a[1..]) == multiset(a) - multiset{x};
    assert multiset(before + after) == multiset(before) + multiset(after) == multiset(b) - multiset{x};
  }

  lemma {:induction false} FillIsOrderFree(a: seq<string>, b: seq<string>, values: map<string, string>)
    requires multiset(a) == multiset(b)
    ensures Agree(Fill(a, values), Fill(b, values))
    decreases |a|
  {
    hide AddOption, StripCr;
    if a == [] {
      assert |multiset(b)| == |b|;
    } else {
      var x := a[0];
      var before, after := FindLine(a, b);
      FillMovesToFront(before, x, after, values);
      assert [x] + before + after == [x] + (before + after);
      assert ([x] + (before + after))[1..] == before + after;
      var added := AddOption(StripCr(x), values);
      if added.Success? {
        FillIsOrderFree(a[1..], before + after, added.value);
      }
    }
  }

  lemma {:induction false} JoinLength(a: seq<string>, b: seq<string>)
    requires multiset(a) == multiset(b)
    ensures |JoinLines(a)| == |JoinLines(b)|
    decreases |a|
  {
    if a == [] {
      assert |multiset(b)| == |b|;
    } else {
      var x := a[0];
      var before, after := FindLine(a, b);
      assert b == before + ([x] + after);
      JoinLength(a[1..], before + after);
      JoinSplits(before, [x] + after);
      JoinSplits(before, after);
      assert ([x] + after)[1..] == after;
    }
  }

  lemma {:induction false} JoinSplits(a: seq<string>, b: seq<string>)
    ensures |JoinLines(a + b)| == |JoinLines(a)| + |JoinLines(b)|
    decreases |a|
  {
    if a == [] {
      assert a + b == b;
    } else {
      assert (a + b)[1..] == a[1..] + b;
      JoinSplits(a[1..], b);
    }
  }

  /** Permuting the option lines of a request never changes what it means. */
  lemma OptionOrderIsIrrelevant(a: seq<string>, b: seq<string>)
    requires multiset(a) == multiset(b) && PlainLines(a)
    ensures Agree(Parse(Request(a)), Parse(Request(b)))
  {
    hide Fill, Configure, JoinLines;
    forall l | l in b ensures PlainLine(l) {
      assert l in multiset(b);
    }
    JoinLength(["START"] + a + ["."], ["START"] + b + ["."]);
    FillIsOrderFree(a, b, map[]);
    if |Request(a)| <= MAX_REQUEST_BYTES {
      ParseRequest(a);
      ParseRequest(b);
    } else {
      TooLong(a);
      TooLong(b);
    }
  }

  lemma TooLong(lines: seq<string>)
    requires |Request(lines)| > MAX_REQUEST_BYTES
    ensures Parse(Request(lines)) == Failure(BadSize)
  {
    hide Request;
  }

  // ----- Round trip

  /** A key, an equals sign and any text free of control characters, even one with '=' in it. */
  lemma OptionLine(key: string, value: string)
    requires key != "" && SafeText(key) && SafeText(value)
    requires forall i :: 0 <= i < |key| ==> key[i] != '='
    ensures var line := key + "=" + value;
            PlainLine(line) && StripCr(line) == line && SplitOption(line) == Some(Entry(key, value))
  {
    var line := key + "=" + value;
    forall i | 0 <= i < |line| ensures line[i] != '\n' && line[i] != '\r' {
      assert !IsControl(line[i]);
    }
    assert line[|line| - 1] != '\r' && line[|key|] == '=' && |line| >= 2;
    forall i | 0 <= i < |key| ensures line[i] != '=' {
      assert line[i] == key[i];
    }
    assert FindEquals(line, 0) == |key|;
    assert line[..|key|] == key && line[|key| + 1..] == value;
  }

  lemma SafeDecimal(n: int)
    requires 0 <= n
    ensures SafeText(Decimal(n))
  {
    NaturalReadsBack(n);
    forall i | 0 <= i < |Decimal(n)| ensures !IsControl(Decimal(n)[i]) {
      assert IsDigit(Decimal(n)[i]);
    }
  }

  predicate PrintableKey(key: string)
  {
    key != "" && SafeText(key) && forall i :: 0 <= i < |key| ==> key[i] != '='
  }

  predicate Printable(options: seq<Entry>)
  {
    forall e :: e in options ==> PrintableKey(e.key) && SafeText(e.value)
  }

  predicate DistinctKeys(options: seq<Entry>)
  {
    forall i, j :: 0 <= i < j < |options| ==> options[i].key != options[j].key
  }

  /** A map that holds exactly these options on top of `values`. */
  ghost predicate Holds(m: map<string, string>, options: seq<Entry>, values: map<string, string>)
  {
    && (forall k :: k in m ==> k in values || exists i :: 0 <= i < |options| && options[i].key == k)
    && (forall k :: k in values ==> k in m && m[k] == values[k])
    && (forall i :: 0 <= i < |options| ==> options[i].key in m && m[options[i].key] == options[i].value)
  }

  lemma AddPrinted(e: Entry, values: map<string, string>)
    requires PrintableKey(e.key) && SafeText(e.value) && e.key !in values
    ensures PlainLine(e.key + "=" + e.value)
    ensures AddOption(StripCr(e.key + "=" + e.value), values) == Success(values[e.key := e.value])
  {
    OptionLine(e.key, e.value);
  }

  /** Printed options are read back into a map that holds exactly them. */
  lemma {:induction false} FillPrinted(options: seq<Entry>, values: map<string, string>)
    requires Printable(options) && DistinctKeys(options)
    requires forall i :: 0 <= i < |options| ==> options[i].key !in values
    ensures PlainLines(PrintOptions(options))
    ensures Fill(PrintOptions(options), values).Success?
    ensures Holds(Fill(PrintOptions(options), values).value, options, values)
    decreases |options|
  {
    hide AddOption, StripCr, PlainLine, PrintableKey, SafeText;
    if options == [] {
    } else {
      var e := options[0];
      AddPrinted(e, values);
      var line, more := e.key + "=" + e.value, values[e.key := e.value];
      FillPrinted(options[1..], more);
      var rest := PrintOptions(options[1..]);
      assert PrintOptions(options) == [line] + rest;
      FillStep(line, rest, values, more);
      HoldsMore(Fill(rest, more).value, options, values);
    }
  }

  lemma HoldsMore(m: map<string, string>, options: seq<Entry>, values: map<string, string>)
    requires options != [] && DistinctKeys(options)
    requires forall i :: 0 <= i < |options| ==> options[i].key !in values
    requires Holds(m, options[1..], values[options[0].key := options[0].value])
    ensures Holds(m, options, values)
  {
    var e, more := options[0], values[options[0].key := options[0].value];
    assert e.key in more && more[e.key] == e.value;
    forall i | 0 <= i < |options| ensures options[i].key in m && m[options[i].key] == options[i].value {
      if i > 0 {
        assert options[1..][i - 1] == options[i];
      }
    }
    forall k | k in m ensures k in values || exists i :: 0 <= i < |options| && options[i].key == k {
      if k !in more {
        var j :| 0 <= j < |options[1..]| && options[1..][j].key == k;
        assert options[j + 1].key == k;
      } else if k == e.key {
        assert options[0].key == k;
      }
    }
    forall k | k in values ensures k in m && m[k] == values[k] {
      assert k in more && more[k] == values[k];
    }
  }

  lemma FillStep(line: string, rest: seq<string>, values: map<string, string>, more: map<string, string>)
    requires AddOption(StripCr(line), values) == Success(more)
    ensures Fill([line] + rest, values) == Fill(rest, more)
  {
    hide AddOption, StripCr;
    assert ([line] + rest)[1..] == rest;
  }

  // ----- The controller's seven options

  lemma KeysAreDistinct(c: VCamConfig)
    ensures DistinctKeys(c.Options())
  {
    hide Decimal;
    assert |"url"| == 3 && |"video_device"| == 12 && |"width"| == 5 && |"height"| == 6;
    assert |"fps"| == 3 && |"rotation"| == 8 && |"mirror"| == 6;
    assert "url"[0] != "fps"[0] && "height"[0] != "mirror"[0];
  }

  lemma KeysArePrintable()
    ensures PrintableKey("url") && PrintableKey("video_device") && PrintableKey("width") && PrintableKey("height")
    ensures PrintableKey("fps") && PrintableKey("rotation") && PrintableKey("mirror")
    ensures SafeText(VIDEO_DEVICE)
  {
  }

  lemma OptionsArePrintable(c: VCamConfig)
    requires SafeText(c.url) && c.rotation >= 0
    ensures Printable(c.Options())
  {
    hide Decimal, SafeText, PrintableKey;
    KeysArePrintable();
    SafeDecimal(1280);
    SafeDecimal(720);
    SafeDecimal(30);
    SafeDecimal(c.rotation);
    SafeDecimal(if c.mirror then 1 else 0);
  }

  lemma ConfigureOptions(m: map<string, string>, c: VCamConfig)
    requires Holds(m, c.Options(), map[])
    requires Nv21Geometry.LegalRotation(c.rotation) && AcceptsUrl(c.url)
    ensures Configure(m) == Success(DEFAULT.(url := c.url, rotation := c.rotation, mirror := c.mirror))
  {
    hide Decimal, ParseInt, StreamSource.ParseStreamSourceUrl;
    var o := c.Options();
    var flip := if c.mirror then 1 else 0;
    assert o[0].key == "url" && o[1].key == "video_device" && o[2].key == "width" && o[3].key == "height";
    assert o[4].key == "fps" && o[5].key == "rotation" && o[6].key == "mirror";
    ParseDecimal(1280);
    ParseDecimal(720);
    ParseDecimal(30);
    ParseDecimal(c.rotation);
    BoolDecimal(c.mirror);
    assert m.Keys <= KNOWN;
    assert "/dev/video" <= VIDEO_DEVICE && |VIDEO_DEVICE| <= 64;
    DefaultsAreSafe();
  }

  lemma BoolDecimal(b: bool)
    ensures ParseBool(Decimal(if b then 1 else 0)) == Some(b)
  {
    assert Decimal(1) == "1" && Decimal(0) == "0";
  }

  lemma DefaultsAreSafe()
    ensures !HasControl(VIDEO_DEVICE) && !HasControl(FFMPEG_PATH)
    ensures 0 < |FFMPEG_PATH| <= 512 && FFMPEG_PATH[0] == '/'
  {
    KeysArePrintable();
    PathPieces();
    SafeJoin("/data/adb/modules", "/vcames_root_bridge");
    SafeJoin("/data/adb/modules" + "/vcames_root_bridge", "/bin/ffmpeg");
  }

  lemma PathPieces()
    ensures SafeText("/data/adb/modules")
    ensures SafeText("/vcames_root_bridge")
    ensures SafeText("/bin/ffmpeg")
  {
  }

  lemma SafeJoin(a: string, b: string)
    requires SafeText(a) && SafeText(b)
    ensures SafeText(a + b)
  {
    forall i | 0 <= i < |a + b| ensures !IsControl((a + b)[i]) {
      if i < |a| {
        assert !IsControl(a[i]);
      } else {
        assert !IsControl(b[i - |a|]);
      }
    }
  }

  lemma LocalIsSafe()
    ensures SafeText(LOCAL) && SafeText(PLACEHOLDER)
  {
  }

  lemma AcceptedUrlIsSafe(url: string)
    requires AcceptsUrl(url)
    ensures SafeText(url) && |url| <= MAX_URL_BYTES
  {
    hide StreamSource.ParseStreamSourceUrl;
    LocalIsSafe();
    if url != LOCAL && url != PLACEHOLDER {
      AcceptedUrlIsPlain(url);
    }
  }

  lemma SizeOfRequest(c: VCamConfig)
    requires |c.url| <= MAX_URL_BYTES && Nv21Geometry.LegalRotation(c.rotation)
    ensures |Request(PrintOptions(c.Options()))| <= MAX_REQUEST_BYTES
  {
    hide Decimal;
    DecimalSizes(c.rotation);
    var o := c.Options();
    PrintedSize(o, 4200);
    JoinSplits(["START"], PrintOptions(o) + ["."]);
    JoinSplits(PrintOptions(o), ["."]);
    assert ["START"] + PrintOptions(o) + ["."] == ["START"] + (PrintOptions(o) + ["."]);
    assert ["START"][1..] == [] && ["."][1..] == [];
  }

  lemma DecimalSizes(rotation: int)
    requires Nv21Geometry.LegalRotation(rotation)
    ensures |Decimal(1280)| == 4 && |Decimal(720)| == 3 && |Decimal(30)| == 2
    ensures |Decimal(rotation)| <= 3 && |Decimal(1)| == |Decimal(0)| == 1
  {
    assert |Natural(128)| == 3 && |Natural(12)| == 2;
    assert |Natural(rotation)| <= 3 by {
      assert |Natural(27)| == |Natural(18)| == 2 && |Natural(9)| == 1;
    }
  }

  /** Each printed line is short, the first one being the address. */
  lemma {:induction false} PrintedSize(options: seq<Entry>, budget: nat)
    requires forall i :: 1 <= i < |options| ==> |options[i].key| + |options[i].value| <= 30
    requires (options != [] ==> |options[0].key| + |options[0].value| <= budget) && budget >= 30
    ensures |JoinLines(PrintOptions(options))| <= budget + 2 + 32 * |options|
    decreases |options|
  {
    if options == [] {
    } else {
      var rest := PrintOptions(options[1..]);
      assert PrintOptions(options)[1..] == rest;
      if |options| > 1 {
        PrintedSize(options[1..], 30);
      }
    }
  }

  /**
   Round trip: for every address the daemon accepts, every rotation and either mirror flag, the printed command
   is parsed back to a start with that address, the fixed geometry, the normalised rotation and the flag.
   */
  lemma StartRoundTrip(url: string, rotation: int, mirror: bool)
    requires AcceptsUrl(url)
    ensures Nv21Geometry.LegalRotation(NormalizeRotation(rotation))
    ensures NormalizeRotation(rotation) == if Nv21Geometry.LegalRotation(rotation) then rotation else 0
    ensures var c := VCamConfig(url, NormalizeRotation(rotation), mirror);
            Parse(c.ToStartCommand()) == Success(Start(DEFAULT.(url := url, rotation := c.rotation, mirror := mirror)))
    ensures DEFAULT.width == 1280 && DEFAULT.height == 720 && DEFAULT.fps == 30 && DEFAULT.videoDevice == VIDEO_DEVICE
  {
    hide Parse, Fill, Configure, Holds, PrintOptions, Decimal, Request, SafeText, StreamSource.ParseStreamSourceUrl;
    var c := VCamConfig(url, NormalizeRotation(rotation), mirror);
    AcceptedUrlIsSafe(url);
    KeysAreDistinct(c);
    OptionsArePrintable(c);
    FillPrinted(c.Options(), map[]);
    SizeOfRequest(c);
    ParseRequest(PrintOptions(c.Options()));
    ConfigureOptions(Fill(PrintOptions(c.Options()), map[]).value, c);
  }

  /** The same for any order of the printed option lines. */
  lemma StartRoundTripAnyOrder(url: string, rotation: int, mirror: bool, lines: seq<string>)
    requires AcceptsUrl(url)
    requires var c := VCamConfig(url, NormalizeRotation(rotation), mirror);
             multiset(lines) == multiset(PrintOptions(c.Options()))
    ensures Parse(Request(lines))
            == Success(Start(DEFAULT.(url := url, rotation := NormalizeRotation(rotation), mirror := mirror)))
  {
    hide Parse, PrintOptions, Decimal, Request, SafeText, StreamSource.ParseStreamSourceUrl;
    var c := VCamConfig(url, NormalizeRotation(rotation), mirror);
    StartRoundTrip(url, rotation, mirror);
    AcceptedUrlIsSafe(url);
    KeysAreDistinct(c);
    OptionsArePrintable(c);
    FillPrinted(c.Options(), map[]);
    OptionOrderIsIrrelevant(PrintOptions(c.Options()), lines);
  }

  /** Whatever its options, a START the daemon accepts asks for a configuration the engine can run. */
  lemma AcceptedStartIsValid(request: string)
    requires Parse(request).Success? && Parse(request).value.Start?
    ensures var c := Parse(request).value.config;
            && AcceptsUrl(c.url) && Nv21Geometry.LegalRotation(c.rotation)
            && c.width == 1280 && c.height == 720 && c.fps == 30
            && "/dev/video" <= c.videoDevice && |c.videoDevice| <= 64 && SafeText(c.videoDevice)
            && Validate(c) == Success(c)
  {
    hide GetLine, ReadOptions, IntOption, BoolOption, StreamSource.ParseStreamSourceUrl;
  }
}
