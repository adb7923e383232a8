/**
 * The media helpers of src/watermarker/core/watermark.py: configuration from
 * the environment, colour validation, escaping for ffmpeg's drawtext filter,
 * the watermark position, the default output path, the ffmpeg command line and
 * the `process_files` batch loop with its `processed` and `skipped` lists.
 * Running ffmpeg and ffprobe, the filesystem and the clock stay outside: their
 * answers are parameters.
 */
module MediaEngine {
  import opened Wrappers
  import opened Text

  /** What one call of `apply_watermark` gives: the output path, or the message of the exception it raised. */
  datatype EngineResult = Produced(outputPath: string) | Raised(message: string)

  /** One `{"input": ..., "output": ...}` entry of a batch report. */
  datatype Processed = Processed(input: string, output: string)

  /** One `{"file": ..., "reason": ...}` entry of a batch report. */
  datatype Skipped = Skipped(file: string, reason: string)

  const ValidExtensions: seq<string> :=
    [".jpg", ".jpeg", ".png", ".bmp", ".gif", ".tiff", ".mp4", ".mkv", ".mov", ".avi", ".webm"]
  const ImageExtensions: seq<string> := [".jpg", ".jpeg", ".png", ".bmp", ".gif", ".tiff"]
  /** Marks a produced file; a path containing it is never watermarked again. */
  const Suffix: string := "_watermarked"
  const FontDir: string := "/usr/share/fonts/truetype/dejavu/"
  const DefaultFontFile: string := FontDir + "DejaVuSans-Bold.ttf"

  // ---------------------------------------------------------------- configuration

  /** The settings `apply_watermark` reads from its config dictionary. */
  datatype Config = Config(
    outputFolder: string,
    padding: int,
    fontColor: string,
    borderColor: string,
    borderThickness: int,
    fontSize: int,
    videoQuality: int,
    imageQuality: int,
    fontFile: string)

  /** The service's `load_config()` dictionary: the engine settings plus the upload limits. */
  datatype Settings = Settings(engine: Config, uploadFolder: string, maxUploadSize: int)

  /** The characters `get_env_var` trims: `strip()` and then `strip('\'"')`. */
  const Quotes: set<char> := {'\'', '"'}

  /** The value `os.getenv(key, default)` reads: the variable, or the default when unset. */
  function RawEnv(env: map<string, string>, key: string, default: string): string
  {
    if key in env then env[key] else default
  }

  /** `get_env_var`: the variable, or the default when unset, with whitespace and then quotes trimmed. */
  function GetEnvVar(env: map<string, string>, key: string, default: string): (v: string)
    ensures v != [] ==> v[0] !in Quotes && v[|v| - 1] !in Quotes
  {
    Strip(Strip(RawEnv(env, key, default), Whitespace), Quotes)
  }

  /**
   * `get_env_var` only trims: the value is a slice of what `os.getenv` read,
   * and everything cut off around it is whitespace or a quote.
   */
  lemma GetEnvVarFramed(env: map<string, string>, key: string, default: string)
    ensures exists i :: FramedBy(RawEnv(env, key, default), GetEnvVar(env, key, default), i, Whitespace + Quotes)
  {
    var raw := RawEnv(env, key, default);
    StripTwice(raw, Whitespace, Quotes);
    assert GetEnvVar(env, key, default) == Strip(Strip(raw, Whitespace), Quotes);
  }

  /** A character `get_env_var` may trim. */
  predicate IsTrimmable(c: char)
  {
    c in Whitespace || c in Quotes
  }

  /** A value `get_env_var` returns unchanged: nothing to trim at either end. */
  predicate Trimmed(v: string)
  {
    v != [] ==> !IsTrimmable(v[0]) && !IsTrimmable(v[|v| - 1])
  }

  lemma GetEnvVarTrimmed(env: map<string, string>, key: string, default: string)
    requires key in env ==> Trimmed(env[key])
    requires key !in env ==> Trimmed(default)
    ensures GetEnvVar(env, key, default) == (if key in env then env[key] else default)
  {
    var raw := if key in env then env[key] else default;
    assert Trimmed(raw);
    assert raw != [] ==> raw[0] !in Whitespace && raw[|raw| - 1] !in Whitespace;
    StripNoEdges(raw, Whitespace);
    assert raw != [] ==> raw[0] !in Quotes && raw[|raw| - 1] !in Quotes;
    StripNoEdges(raw, Quotes);
  }

  /** The hexadecimal digits of the colour pattern's class `[0-9a-fA-F]`. */
  predicate IsHexDigit(c: char)
  {
    '0' <= c <= '9' || 'a' <= c <= 'f' || 'A' <= c <= 'F'
  }

  /**
   * `re.match(r'^[0-9a-fA-F]{6}$', s)`: six hex digits from the start, then
   * `$`, which Python also lets match before a single final newline.
   */
  predicate MatchesHexPattern(s: string)
  {
    && |s| >= 6
    && (forall i :: 0 <= i < 6 ==> IsHexDigit(s[i]))
    && (|s| == 6 || (|s| == 7 && s[6] == '\n'))
  }

  /** `is_valid_hex_color`: false for the empty string, else the pattern. */
  predicate IsValidHexColor(s: string)
  {
    if s == [] then false else MatchesHexPattern(s)
  }

  /** The empty-string guard changes nothing: the pattern rejects the empty string too. */
  lemma HexGuardRedundant(s: string)
    ensures IsValidHexColor(s) == MatchesHexPattern(s)
  {
  }

  /**
   * What the check accepts: exactly the six-digit codes, with or without one
   * trailing newline; a leading `#`, three-digit codes and longer strings fail.
   */
  lemma HexColorForms(h: string, c: char)
    requires |h| == 6 && forall i :: 0 <= i < 6 ==> IsHexDigit(h[i])
    ensures IsValidHexColor(h) && IsValidHexColor(h + "\n")
    ensures !IsValidHexColor("#" + h) && !IsValidHexColor(h[..3])
    ensures !IsValidHexColor(h + "\n" + [c]) && !IsValidHexColor(h + "\n\n")
    ensures c != '\n' ==> !IsValidHexColor(h + [c])
  {
    assert ("#" + h)[0] == '#';
  }

  /** `int(get_env_var(key, default))`; `None` stands for the `ValueError`. */
  function ReadInt(env: map<string, string>, key: string, default: string): Option<int>
  {
    ParseInt(GetEnvVar(env, key, default))
  }

  /** The service's `load_config()`; `None` stands for the `ValueError` it raises. */
  function LoadConfig(env: map<string, string>): (r: Option<Settings>)
    ensures r.Some? ==> IsValidHexColor(r.value.engine.fontColor) && IsValidHexColor(r.value.engine.borderColor)
  {
    CheckedSettings(
      GetEnvVar(env, "OUTPUT_FOLDER", ""), ReadInt(env, "PADDING", "0"),
      GetEnvVar(env, "FONT_COLOR", "FFC0CB"), GetEnvVar(env, "BORDER_COLOR", "FFFFFF"),
      ReadInt(env, "BORDER_THICKNESS", "2"), ReadInt(env, "FONT_SIZE", "46"),
      ReadInt(env, "VIDEO_QUALITY", "18"), ReadInt(env, "IMAGE_QUALITY", "2"),
      GetEnvVar(env, "FONT_FILE", DefaultFontFile), GetEnvVar(env, "UPLOAD_FOLDER", "./uploads"),
      ReadInt(env, "MAX_UPLOAD_SIZE_MB", "1024"))
  }

  /** The dictionary `load_config` returns from the values it read: `None` when a number or a colour is invalid. */
  function CheckedSettings(outputFolder: string, padding: Option<int>, fontColor: string, borderColor: string,
                           thickness: Option<int>, size: Option<int>, videoQuality: Option<int>,
                           imageQuality: Option<int>, fontFile: string, uploadFolder: string,
                           maxUploadMb: Option<int>): (r: Option<Settings>)
    ensures r.Some? <==> padding.Some? && thickness.Some? && size.Some? && videoQuality.Some? && imageQuality.Some?
                         && maxUploadMb.Some? && IsValidHexColor(fontColor) && IsValidHexColor(borderColor)
    ensures r.Some? ==> r.value.engine.fontColor == fontColor && r.value.engine.borderColor == borderColor
  {
    if padding.None? || thickness.None? || size.None? || videoQuality.None? || imageQuality.None? || maxUploadMb.None? then None
    else if !IsValidHexColor(fontColor) || !IsValidHexColor(borderColor) then None
    else Some(Settings(
      Config(outputFolder, padding.value, fontColor, borderColor, thickness.value, size.value,
             videoQuality.value, imageQuality.value, fontFile),
      uploadFolder, maxUploadMb.value * 1024 * 1024))
  }

  /** A variable holding `str(n)` reads back as `n`. */
  lemma ReadIntDecimal(env: map<string, string>, key: string, default: string, n: int)
    requires key in env && env[key] == Decimal(n)
    ensures ReadInt(env, key, default) == Some(n)
  {
    DecimalTrimmed(n);
    GetEnvVarTrimmed(env, key, default);
    ParseDecimal(n);
  }

  /** `env` spells out the given settings, one variable per key, numbers in decimal and the upload limit as `mb` MiB. */
  predicate Describes(env: map<string, string>, s: Settings, mb: int)
  {
    && "OUTPUT_FOLDER" in env && env["OUTPUT_FOLDER"] == s.engine.outputFolder
    && "PADDING" in env && env["PADDING"] == Decimal(s.engine.padding)
    && "FONT_COLOR" in env && env["FONT_COLOR"] == s.engine.fontColor
    && "BORDER_COLOR" in env && env["BORDER_COLOR"] == s.engine.borderColor
    && "BORDER_THICKNESS" in env && env["BORDER_THICKNESS"] == Decimal(s.engine.borderThickness)
    && "FONT_SIZE" in env && env["FONT_SIZE"] == Decimal(s.engine.fontSize)
    && "VIDEO_QUALITY" in env && env["VIDEO_QUALITY"] == Decimal(s.engine.videoQuality)
    && "IMAGE_QUALITY" in env && env["IMAGE_QUALITY"] == Decimal(s.engine.imageQuality)
    && "FONT_FILE" in env && env["FONT_FILE"] == s.engine.fontFile
    && "UPLOAD_FOLDER" in env && env["UPLOAD_FOLDER"] == s.uploadFolder
    && "MAX_UPLOAD_SIZE_MB" in env && env["MAX_UPLOAD_SIZE_MB"] == Decimal(mb) && s.maxUploadSize == mb * 1024 * 1024
  }

  /** `str(n)` never needs trimming. */
  lemma DecimalTrimmed(n: int)
    ensures Trimmed(Decimal(n))
  {
    var d := Decimal(n);
    assert IsDigit(d[0]) || d[0] == '-';
    assert !IsTrimmable(d[0]) && !IsTrimmable(d[|d| - 1]);
  }

  /** The string settings read back from an environment that describes them. */
  lemma StringsRead(env: map<string, string>, s: Settings, mb: int)
    requires Describes(env, s, mb)
    requires |s.engine.fontColor| == 6 && IsValidHexColor(s.engine.fontColor)
    requires |s.engine.borderColor| == 6 && IsValidHexColor(s.engine.borderColor)
    requires Trimmed(s.engine.outputFolder) && Trimmed(s.engine.fontFile) && Trimmed(s.uploadFolder)
    ensures GetEnvVar(env, "OUTPUT_FOLDER", "") == s.engine.outputFolder
    ensures GetEnvVar(env, "FONT_COLOR", "FFC0CB") == s.engine.fontColor
    ensures GetEnvVar(env, "BORDER_COLOR", "FFFFFF") == s.engine.borderColor
    ensures GetEnvVar(env, "FONT_FILE", DefaultFontFile) == s.engine.fontFile
    ensures GetEnvVar(env, "UPLOAD_FOLDER", "./uploads") == s.uploadFolder
  {
    var c := s.engine;
    HexTrimmed(c.fontColor);
    HexTrimmed(c.borderColor);
    GetEnvVarTrimmed(env, "OUTPUT_FOLDER", "");
    GetEnvVarTrimmed(env, "FONT_COLOR", "FFC0CB");
    GetEnvVarTrimmed(env, "BORDER_COLOR", "FFFFFF");
    GetEnvVarTrimmed(env, "FONT_FILE", DefaultFontFile);
    GetEnvVarTrimmed(env, "UPLOAD_FOLDER", "./uploads");
  }

  /** A six-digit colour needs no trimming. */
  lemma HexTrimmed(c: string)
    requires IsValidHexColor(c)
    ensures |c| == 6 ==> Trimmed(c)
  {
    assert !IsTrimmable(c[0]);
    if |c| == 6 {
      assert !IsTrimmable(c[5]);
    }
  }

  /** The numeric settings read back from an environment that describes them. */
  lemma IntsRead(env: map<string, string>, s: Settings, mb: int)
    requires Describes(env, s, mb)
    ensures ReadInt(env, "PADDING", "0") == Some(s.engine.padding)
    ensures ReadInt(env, "BORDER_THICKNESS", "2") == Some(s.engine.borderThickness)
    ensures ReadInt(env, "FONT_SIZE", "46") == Some(s.engine.fontSize)
    ensures ReadInt(env, "VIDEO_QUALITY", "18") == Some(s.engine.videoQuality)
    ensures ReadInt(env, "IMAGE_QUALITY", "2") == Some(s.engine.imageQuality)
    ensures ReadInt(env, "MAX_UPLOAD_SIZE_MB", "1024") == Some(mb)
  {
    var c := s.engine;
    ReadIntDecimal(env, "PADDING", "0", c.padding);
    ReadIntDecimal(env, "BORDER_THICKNESS", "2", c.borderThickness);
    ReadIntDecimal(env, "FONT_SIZE", "46", c.fontSize);
    ReadIntDecimal(env, "VIDEO_QUALITY", "18", c.videoQuality);
    ReadIntDecimal(env, "IMAGE_QUALITY", "2", c.imageQuality);
    ReadIntDecimal(env, "MAX_UPLOAD_SIZE_MB", "1024", mb);
  }

  /** Valid values pass `load_config`'s checks unchanged. */
  lemma CheckedSettingsOf(s: Settings, mb: int)
    requires s.maxUploadSize == mb * 1024 * 1024
    requires IsValidHexColor(s.engine.fontColor) && IsValidHexColor(s.engine.borderColor)
    ensures var c := s.engine;
      CheckedSettings(c.outputFolder, Some(c.padding), c.fontColor, c.borderColor,
        Some(c.borderThickness), Some(c.fontSize), Some(c.videoQuality), Some(c.imageQuality), c.fontFile,
        s.uploadFolder, Some(mb)) == Some(s)
  {
  }

  /** `load_config` returns the settings its eleven reads spell out, when those pass its checks. */
  lemma LoadConfigReads(env: map<string, string>, s: Settings, mb: int)
    requires GetEnvVar(env, "OUTPUT_FOLDER", "") == s.engine.outputFolder
    requires GetEnvVar(env, "FONT_COLOR", "FFC0CB") == s.engine.fontColor
    requires GetEnvVar(env, "BORDER_COLOR", "FFFFFF") == s.engine.borderColor
    requires GetEnvVar(env, "FONT_FILE", DefaultFontFile) == s.engine.fontFile
    requires GetEnvVar(env, "UPLOAD_FOLDER", "./uploads") == s.uploadFolder
    requires ReadInt(env, "PADDING", "0") == Some(s.engine.padding)
    requires ReadInt(env, "BORDER_THICKNESS", "2") == Some(s.engine.borderThickness)
    requires ReadInt(env, "FONT_SIZE", "46") == Some(s.engine.fontSize)
    requires ReadInt(env, "VIDEO_QUALITY", "18") == Some(s.engine.videoQuality)
    requires ReadInt(env, "IMAGE_QUALITY", "2") == Some(s.engine.imageQuality)
    requires ReadInt(env, "MAX_UPLOAD_SIZE_MB", "1024") == Some(mb) && s.maxUploadSize == mb * 1024 * 1024
    requires IsValidHexColor(s.engine.fontColor) && IsValidHexColor(s.engine.borderColor)
    ensures LoadConfig(env) == Some(s)
  {
    CheckedSettingsOf(s, mb);
  }

  /**
   * Loading is faithful: settings whose colours are six hex digits and whose
   * strings need no trimming load back from an environment that spells them out.
   */
  lemma LoadConfigRoundTrip(env: map<string, string>, s: Settings, mb: int)
    requires Describes(env, s, mb)
    requires |s.engine.fontColor| == 6 && IsValidHexColor(s.engine.fontColor)
    requires |s.engine.borderColor| == 6 && IsValidHexColor(s.engine.borderColor)
    requires Trimmed(s.engine.outputFolder) && Trimmed(s.engine.fontFile) && Trimmed(s.uploadFolder)
    ensures LoadConfig(env) == Some(s)
  {
    StringsRead(env, s, mb);
    IntsRead(env, s, mb);
    LoadConfigReads(env, s, mb);
  }

  /** An unset variable reads as its default. */
  lemma ReadIntDefault(env: map<string, string>, key: string, default: string, n: int)
    requires key !in env && default == Decimal(n)
    ensures ReadInt(env, key, default) == Some(n)
  {
    DecimalTrimmed(n);
    GetEnvVarTrimmed(env, key, default);
    ParseDecimal(n);
  }

  /** With nothing set, the service's defaults: padding 0, pink text, white border of 2, size 46, 1 GiB uploads. */
  lemma LoadConfigDefaults()
    ensures LoadConfig(map[]) == Some(Settings(
      Config("", 0, "FFC0CB", "FFFFFF", 2, 46, 18, 2, DefaultFontFile), "./uploads", 1024 * 1024 * 1024))
  {
    DefaultStringsRead();
    DefaultIntsRead();
    DefaultColorsValid();
    LoadConfigReads(map[], Settings(Config("", 0, "FFC0CB", "FFFFFF", 2, 46, 18, 2, DefaultFontFile), "./uploads", 1024 * 1024 * 1024), 1024);
  }

  /** With nothing set, each string reads as its default. */
  lemma DefaultStringsRead()
    ensures GetEnvVar(map[], "OUTPUT_FOLDER", "") == ""
    ensures GetEnvVar(map[], "FONT_COLOR", "FFC0CB") == "FFC0CB"
    ensures GetEnvVar(map[], "BORDER_COLOR", "FFFFFF") == "FFFFFF"
    ensures GetEnvVar(map[], "FONT_FILE", DefaultFontFile) == DefaultFontFile
    ensures GetEnvVar(map[], "UPLOAD_FOLDER", "./uploads") == "./uploads"
  {
    var env: map<string, string> := map[];
    DefaultsTrimmed();
    GetEnvVarTrimmed(env, "OUTPUT_FOLDER", "");
    GetEnvVarTrimmed(env, "FONT_COLOR", "FFC0CB");
    GetEnvVarTrimmed(env, "BORDER_COLOR", "FFFFFF");
    GetEnvVarTrimmed(env, "FONT_FILE", DefaultFontFile);
    GetEnvVarTrimmed(env, "UPLOAD_FOLDER", "./uploads");
  }

  /** With nothing set, each number reads as its default. */
  lemma DefaultIntsRead()
    ensures ReadInt(map[], "PADDING", "0") == Some(0)
    ensures ReadInt(map[], "BORDER_THICKNESS", "2") == Some(2)
    ensures ReadInt(map[], "FONT_SIZE", "46") == Some(46)
    ensures ReadInt(map[], "VIDEO_QUALITY", "18") == Some(18)
    ensures ReadInt(map[], "IMAGE_QUALITY", "2") == Some(2)
    ensures ReadInt(map[], "MAX_UPLOAD_SIZE_MB", "1024") == Some(1024)
  {
    var env: map<string, string> := map[];
    DecimalSmall();
    ReadIntDefault(env, "PADDING", "0", 0);
    ReadIntDefault(env, "BORDER_THICKNESS", "2", 2);
    ReadIntDefault(env, "FONT_SIZE", "46", 46);
    ReadIntDefault(env, "VIDEO_QUALITY", "18", 18);
    ReadIntDefault(env, "IMAGE_QUALITY", "2", 2);
    ReadIntDefault(env, "MAX_UPLOAD_SIZE_MB", "1024", 1024);
  }

  lemma DefaultColorsValid()
    ensures IsValidHexColor("FFC0CB") && IsValidHexColor("FFFFFF")
  {
  }

  /** The default strings need no trimming. */
  lemma DefaultsTrimmed()
    ensures Trimmed("./uploads") && Trimmed(DefaultFontFile) && Trimmed("FFC0CB") && Trimmed("FFFFFF")
  {
    assert "./uploads"[0] == '.' && "./uploads"[8] == 's';
    assert DefaultFontFile[0] == '/' && DefaultFontFile[|DefaultFontFile| - 1] == 'f';
  }

  /** `str(n)` for the numbers among the defaults. */
  lemma DecimalSmall()
    ensures Decimal(0) == "0" && Decimal(2) == "2" && Decimal(3) == "3" && Decimal(10) == "10"
    ensures Decimal(18) == "18" && Decimal(46) == "46" && Decimal(48) == "48" && Decimal(1024) == "1024"
  {
    assert NatDigits(1) == "1" && NatDigits(4) == "4";
    assert NatDigits(10) == NatDigits(1) + "0";
    assert NatDigits(18) == NatDigits(1) + "8";
    assert NatDigits(46) == NatDigits(4) + "6";
    assert NatDigits(48) == NatDigits(4) + "8";
    assert NatDigits(102) == NatDigits(10) + "2";
    assert NatDigits(1024) == NatDigits(102) + "4";
  }

  // ---------------------------------------------------------------- drawtext escaping

  /**
   * `escape_ffmpeg_text`: the empty string stays empty, otherwise three
   * `replace` passes in order: a backslash becomes two, a quote becomes
   * `'\\''` and a colon becomes `\\:`.
   */
  function EscapeText(text: string): string
  {
    if text == [] then []
    else ReplaceAll(ReplaceAll(ReplaceAll(text, '\\', "\\\\"), '\'', "'\\\\''"), ':', "\\\\:")
  }

  /** What one character of the text becomes. */
  function EscapeChar(c: char): (e: string)
    ensures e != [] && e[0] != ':'
  {
    if c == '\\' then "\\\\"
    else if c == '\'' then "'\\\\''"
    else if c == ':' then "\\\\:"
    else [c]
  }

  /** Reference definition: the text escaped one character at a time. */
  function EscapeEach(text: string): string
  {
    if text == [] then [] else EscapeChar(text[0]) + EscapeEach(text[1..])
  }

  /** The three passes, guard aside. */
  function Passes(text: string): string
  {
    ReplaceAll(ReplaceAll(ReplaceAll(text, '\\', "\\\\"), '\'', "'\\\\''"), ':', "\\\\:")
  }

  /** The passes act on the first character independently of the rest. */
  lemma PassesCons(c: char, rest: string)
    ensures Passes([c] + rest) == EscapeChar(c) + Passes(rest)
  {
    PassesAppend([c], rest);
    PassesChar(c);
  }

  /** Each pass works piecewise, so the three do. */
  lemma PassesAppend(a: string, b: string)
    ensures Passes(a + b) == Passes(a) + Passes(b)
  {
    ReplaceAllAppend(a, b, '\\', "\\\\");
    var a1, b1 := ReplaceAll(a, '\\', "\\\\"), ReplaceAll(b, '\\', "\\\\");
    ReplaceAllAppend(a1, b1, '\'', "'\\\\''");
    var a2, b2 := ReplaceAll(a1, '\'', "'\\\\''"), ReplaceAll(b1, '\'', "'\\\\''");
    ReplaceAllAppend(a2, b2, ':', "\\\\:");
  }

  /** On one character the passes give `EscapeChar`. */
  lemma PassesChar(c: char)
    ensures Passes([c]) == EscapeChar(c)
  {
    ReplaceAllSingle(c, '\\', "\\\\");
    var s1 := if c == '\\' then "\\\\" else [c];
    ReplaceAllSingle(c, '\'', "'\\\\''");
    var s2 := if c == '\'' then "'\\\\''" else if c == '\\' then "\\\\" else [c];
    if c == '\\' {
      ReplaceAllAbsent(s1, '\'', "'\\\\''");
    }
    ReplaceAllSingle(c, ':', "\\\\:");
    if c != ':' {
      ReplaceAllAbsent(s2, ':', "\\\\:");
    }
  }

  /** The three passes escape each character on its own: no pass rewrites what an earlier one produced. */
  lemma {:induction false} EscapeTextEach(text: string)
    ensures EscapeText(text) == EscapeEach(text)
  {
    if text != [] {
      EscapeTextEach(text[1..]);
      PassesCons(text[0], text[1..]);
      assert [text[0]] + text[1..] == text;
      if text[1..] == [] {
        assert Passes([]) == [];
      }
    }
  }

  /** Length grows by one per backslash, four per quote and two per colon. */
  lemma {:induction false} EscapeTextLength(text: string)
    ensures |EscapeText(text)| == |text| + Count(text, '\\') + 4 * Count(text, '\'') + 2 * Count(text, ':')
  {
    EscapeTextEach(text);
    if text != [] {
      EscapeTextLength(text[1..]);
      EscapeTextEach(text[1..]);
    }
  }

  /** Text without backslashes, quotes and colons passes through unchanged. */
  lemma EscapeTextPlain(text: string)
    requires '\\' !in text && '\'' !in text && ':' !in text
    ensures EscapeText(text) == text
  {
    EscapeTextEach(text);
    EscapeEachPlain(text);
  }

  /** Escaping character by character leaves such a text unchanged. */
  lemma {:induction false} EscapeEachPlain(text: string)
    requires '\\' !in text && '\'' !in text && ':' !in text
    ensures EscapeEach(text) == text
  {
    if text != [] {
      EscapeEachPlain(text[1..]);
      assert EscapeChar(text[0]) == [text[0]];
      assert text == [text[0]] + text[1..];
    }
  }


  /** Every colon is preceded by a backslash, so none can end the `text=` option of the filter. */
  predicate ColonsEscaped(s: string)
  {
    forall i :: 0 <= i < |s| && s[i] == ':' ==> 0 < i && s[i - 1] == '\\'
  }

  lemma ColonsEscapedAppend(a: string, b: string)
    requires ColonsEscaped(a) && ColonsEscaped(b)
    ensures ColonsEscaped(a + b)
  {
    forall i | 0 <= i < |a + b| && (a + b)[i] == ':'
      ensures 0 < i && (a + b)[i - 1] == '\\'
    {
      if i >= |a| {
        assert b[i - |a|] == ':';
      }
    }
  }

  lemma {:induction false} EscapeTextColons(text: string)
    ensures ColonsEscaped(EscapeText(text))
  {
    EscapeTextEach(text);
    if text != [] {
      EscapeTextColons(text[1..]);
      EscapeTextEach(text[1..]);
      ColonsEscapedAppend(EscapeChar(text[0]), EscapeEach(text[1..]));
    }
  }

  /**
   * Reads an escaped text back, token by token: a quote opens the five-character
   * quote token, a backslash followed by a backslash and a colon is a colon, a
   * backslash followed by one more character is a backslash.
   */
  function Unescape(s: string): string
    decreases |s|
  {
    if s == [] then []
    else if s[0] == '\'' && |s| >= 5 then "'" + Unescape(s[5..])
    else if s[0] == '\\' && |s| >= 3 && s[2] == ':' then ":" + Unescape(s[3..])
    else if s[0] == '\\' && |s| >= 2 then "\\" + Unescape(s[2..])
    else [s[0]] + Unescape(s[1..])
  }

  /** One escaped character is read back, whatever escaped text follows it. */
  lemma UnescapeChar(c: char, rest: string)
    requires rest == [] || rest[0] != ':'
    ensures Unescape(EscapeChar(c) + rest) == [c] + Unescape(rest)
  {
    var s := EscapeChar(c) + rest;
    if c == '\'' {
      assert s[0] == '\'' && s[5..] == rest;
    } else if c == ':' {
      assert s[0] == '\\' && s[2] == ':' && s[3..] == rest;
    } else if c == '\\' {
      assert s[0] == '\\' && s[2..] == rest;
      assert |s| >= 3 ==> s[2] == rest[0];
    } else {
      assert s[0] == c && s[1..] == rest;
    }
  }

  /** Escaping loses nothing: the original text can be read back from the escaped one. */
  lemma {:induction false} UnescapeEscapeText(text: string)
    ensures Unescape(EscapeText(text)) == text
  {
    EscapeTextEach(text);
    if text != [] {
      UnescapeEscapeText(text[1..]);
      EscapeTextEach(text[1..]);
      var rest := EscapeEach(text[1..]);
      assert rest == [] || rest[0] != ':' by {
        if text[1..] != [] {
          assert rest == EscapeChar(text[1..][0]) + EscapeEach(text[1..][1..]);
        }
      }
      UnescapeChar(text[0], rest);
      assert [text[0]] + text[1..] == text;
    }
  }

  /** `config['font_file'].replace('\\', '/')`: a font path with forward slashes only. */
  function FilterFontPath(fontFile: string): string
  {
    ReplaceAll(fontFile, '\\', "/")
  }

  /** The font path keeps its length, loses every backslash, and is unchanged when it had none. */
  lemma FilterFontPathSlashes(fontFile: string)
    ensures |FilterFontPath(fontFile)| == |fontFile|
    ensures '\\' !in FilterFontPath(fontFile)
    ensures '\\' !in fontFile ==> FilterFontPath(fontFile) == fontFile
  {
    ReplaceAllRemoves(fontFile, '\\', "/");
    ReplaceAllLength(fontFile, '\\', "/");
    if '\\' !in fontFile {
      ReplaceAllAbsent(fontFile, '\\', "/");
    }
  }

  // ---------------------------------------------------------------- position

  /** The `x` and `y` expressions of the drawtext filter. */
  datatype Placement = Placement(x: string, y: string)

  /** `apply_watermark`'s position branch: four named positions, anything else is top-left. */
  function PositionExpr(position: string, padding: int): Placement
  {
    var p := Decimal(padding);
    if position == "top-right" then Placement("w-text_w-" + p, p)
    else if position == "bottom-left" then Placement(p, "h-text_h-" + p)
    else if position == "bottom-right" then Placement("w-text_w-" + p, "h-text_h-" + p)
    else if position == "center" then Placement("(w-text_w)/2", "(h-text_h)/2")
    else Placement(p, p)
  }

  datatype Anchor = Leading | Centred | Trailing

  /** Horizontal anchor of a position name. */
  function Horizontal(position: string): Anchor
  {
    if position == "top-right" || position == "bottom-right" then Trailing
    else if position == "center" then Centred
    else Leading
  }

  /** Vertical anchor of a position name. */
  function Vertical(position: string): Anchor
  {
    if position == "bottom-left" || position == "bottom-right" then Trailing
    else if position == "center" then Centred
    else Leading
  }

  /** The filter expression placing the text at an anchor: `padding` in from the start or end edge, or centred. */
  function AxisExpr(a: Anchor, extent: string, padding: int): string
  {
    match a
    case Leading => Decimal(padding)
    case Centred => "(" + extent + "-text_" + extent + ")/2"
    case Trailing => extent + "-text_" + extent + "-" + Decimal(padding)
  }

  /**
   * The position branch agrees with the per-axis reading of the name: `x`
   * comes from the horizontal anchor against the width, `y` from the vertical
   * anchor against the height; an unknown name anchors both at the start.
   */
  lemma PositionByAxes(position: string, padding: int)
    ensures PositionExpr(position, padding)
      == Placement(AxisExpr(Horizontal(position), "w", padding), AxisExpr(Vertical(position), "h", padding))
  {
    AxisLiterals(padding);
  }

  /** The anchored expressions spelled out for the two axes. */
  lemma AxisLiterals(padding: int)
    ensures AxisExpr(Trailing, "w", padding) == "w-text_w-" + Decimal(padding)
    ensures AxisExpr(Trailing, "h", padding) == "h-text_h-" + Decimal(padding)
    ensures AxisExpr(Centred, "w", padding) == "(w-text_w)/2"
    ensures AxisExpr(Centred, "h", padding) == "(h-text_h)/2"
  {
    var p := Decimal(padding);
    assert "w" + "-text_" + "w" + "-" == "w-text_w-";
    assert "h" + "-text_" + "h" + "-" == "h-text_h-";
    assert "w" + "-text_" + "w" + "-" + p == "w-text_w-" + p;
    assert "h" + "-text_" + "h" + "-" + p == "h-text_h-" + p;
  }

  /** The five positions give five different placements, whatever the padding. */
  lemma PositionsDistinct(padding: int, a: string, b: string)
    requires a in ["top-left", "top-right", "bottom-left", "bottom-right", "center"]
    requires b in ["top-left", "top-right", "bottom-left", "bottom-right", "center"]
    requires a != b
    ensures PositionExpr(a, padding) != PositionExpr(b, padding)
  {
    var p := Decimal(padding);
    assert p[0] != 'w' && p[0] != 'h' && p[0] != '(' by {
      assert IsDigit(p[0]) || p[0] == '-';
    }
    assert ("w-text_w-" + p)[0] == 'w';
    assert ("h-text_h-" + p)[0] == 'h';
    assert "(w-text_w)/2"[0] == '(';
    assert "(h-text_h)/2"[0] == '(';
  }

  // ---------------------------------------------------------------- output path

  /** `Path(p).name`: the part after the last separator. */
  function FileName(p: string): (n: string)
    ensures '/' !in n
  {
    p[LastIndexOf(p, '/') + 1..]
  }

  /** The directory part of `p` up to and including its last separator; what `Path(p).parent /` puts in front. */
  function DirPart(p: string): (d: string)
    ensures d + FileName(p) == p
  {
    var k := LastIndexOf(p, '/') + 1;
    assert p[..k] + p[k..] == p;
    p[..k]
  }

  /** `PurePath.suffix`: from the last dot, unless the dot starts or ends the name. */
  function PathSuffix(name: string): (x: string)
    ensures |x| <= |name| && x == name[|name| - |x|..]
  {
    var i := LastIndexOf(name, '.');
    if 0 < i < |name| - 1 then name[i..] else ""
  }

  /** `PurePath.stem`: the name without its suffix. */
  function PathStem(name: string): (st: string)
    ensures st + PathSuffix(name) == name
  {
    name[..|name| - |PathSuffix(name)|]
  }

  /** `Path(folder) / name` for a relative `name`. */
  function JoinPath(folder: string, name: string): string
  {
    if folder == [] || folder[|folder| - 1] == '/' then folder + name else folder + "/" + name
  }

  /** The file name `apply_watermark` gives its output: stem, marker, `_`, timestamp, suffix. */
  function OutputFileName(input: string, timestamp: string): string
  {
    var name := FileName(input);
    PathStem(name) + Suffix + "_" + timestamp + PathSuffix(name)
  }

  /** `apply_watermark`'s default output path: in the output folder if one is set, else beside the input. */
  function DefaultOutputPath(input: string, outputFolder: string, timestamp: string): string
  {
    if outputFolder != [] then JoinPath(outputFolder, OutputFileName(input, timestamp))
    else DirPart(input) + OutputFileName(input, timestamp)
  }

  lemma ContainsMiddle(a: string, b: string, c: string)
    ensures Contains(a + b + c, b)
  {
    assert (a + b + c)[|a|..|a| + |b|] == b;
    assert OccursAt(a + b + c, b, |a|);
  }

  /** A directory part ending in a separator, followed by a name without one, splits back into the two. */
  lemma SplitPath(dir: string, name: string)
    requires dir != [] ==> dir[|dir| - 1] == '/'
    requires '/' !in name
    ensures FileName(dir + name) == name && DirPart(dir + name) == dir
  {
    LastIndexOfAppend(dir, name, '/');
    assert (dir + name)[|dir|..] == name;
    assert (dir + name)[..|dir|] == dir;
  }

  /** `Path(folder) / name` is the folder's directory part followed by the name. */
  lemma JoinPathSplit(folder: string, name: string)
    ensures JoinPath(folder, name) == JoinPath(folder, "") + name
    ensures JoinPath(folder, "") != [] ==> JoinPath(folder, "")[|JoinPath(folder, "")| - 1] == '/'
  {
    assert folder + "" == folder;
    assert folder + "/" + "" == folder + "/";
  }

  /** The output file name has no separator when the timestamp has none. */
  lemma OutputFileNameParts(input: string, timestamp: string)
    requires '/' !in timestamp
    ensures '/' !in OutputFileName(input, timestamp)
    ensures EndsWith(OutputFileName(input, timestamp), PathSuffix(FileName(input)))
    ensures Contains(OutputFileName(input, timestamp), Suffix)
  {
    var name := FileName(input);
    var st, sx := PathStem(name), PathSuffix(name);
    StemSuffixNoSlash(name);
    var head := st + Suffix + "_" + timestamp;
    MarkerNoSlash();
    assert OutputFileName(input, timestamp) == head + sx;
    assert EndsWith(sx, sx);
    EndsWithAppend(head, sx, sx);
    Regroup(st, Suffix, "_", timestamp, sx);
    ContainsMiddle(st, Suffix, "_" + timestamp + sx);
  }

  lemma Regroup(a: string, b: string, c: string, d: string, e: string)
    ensures a + b + c + d + e == a + b + (c + d + e)
  {
  }

  /** The marker and the underscore after it contain no separator. */
  lemma MarkerNoSlash()
    ensures '/' !in Suffix + "_"
  {
  }

  /** The stem and the suffix of a name without a separator have none either. */
  lemma StemSuffixNoSlash(name: string)
    requires '/' !in name
    ensures '/' !in PathStem(name) && '/' !in PathSuffix(name)
  {
    var st, sx := PathStem(name), PathSuffix(name);
    assert st + sx == name;
    assert forall i :: 0 <= i < |st| ==> st[i] == name[i];
    assert forall i :: 0 <= i < |sx| ==> sx[i] == name[|st| + i];
  }


  /**
   * The default output: its file name is the input's stem, the marker, the
   * timestamp and the input's suffix; it lies in the output folder, or in the
   * input's directory when none is set; and it carries the marker.
   */
  lemma DefaultOutputPathShape(input: string, outputFolder: string, timestamp: string)
    requires '/' !in timestamp
    ensures var out := DefaultOutputPath(input, outputFolder, timestamp);
      && FileName(out) == OutputFileName(input, timestamp)
      && (outputFolder == [] ==> DirPart(out) == DirPart(input))
      && (outputFolder != [] ==> DirPart(out) == JoinPath(outputFolder, ""))
      && EndsWith(out, PathSuffix(FileName(input)))
      && Contains(out, Suffix)
  {
    var fileName := OutputFileName(input, timestamp);
    var dir := if outputFolder == [] then DirPart(input) else JoinPath(outputFolder, "");
    OutputFileNameParts(input, timestamp);
    JoinPathSplit(outputFolder, fileName);
    assert DefaultOutputPath(input, outputFolder, timestamp) == dir + fileName;
    SplitPath(dir, fileName);
    ContainsRight(dir, fileName, Suffix);
    EndsWithAppend(dir, fileName, PathSuffix(FileName(input)));
  }

  /** `apply_watermark`'s output: the requested path, or the default one. */
  function OutputPath(input: string, requested: Option<string>, outputFolder: string, timestamp: string): string
  {
    if requested.Some? then requested.value else DefaultOutputPath(input, outputFolder, timestamp)
  }

  // ---------------------------------------------------------------- ffmpeg command

  predicate HasValidExtension(path: string)
  {
    EndsWithAny(Lower(path), ValidExtensions)
  }

  /** `str(input_path).lower().endswith(IMAGE_EXTENSIONS)`. */
  predicate IsImage(path: string)
  {
    EndsWithAny(Lower(path), ImageExtensions)
  }

  /** Every image extension is an accepted one. */
  lemma ImagesAreValid(path: string)
    ensures IsImage(path) ==> HasValidExtension(path)
  {
    if IsImage(path) {
      var k :| 0 <= k < |ImageExtensions| && EndsWith(Lower(path), ImageExtensions[k]);
      assert ValidExtensions[k] == ImageExtensions[k];
    }
  }

  /** The drawtext filter argument of the command. */
  function DrawtextFilter(fontPath: string, text: string, place: Placement, cfg: Config): string
  {
    "drawtext=fontfile='" + fontPath + "':text='" + text + "':x=" + place.x + ":y=" + place.y
      + ":fontsize=" + Decimal(cfg.fontSize) + ":fontcolor=0x" + cfg.fontColor
      + ":borderw=" + Decimal(cfg.borderThickness) + ":bordercolor=0x" + cfg.borderColor
      + ":shadowcolor=0x808080:shadowx=3:shadowy=3"
  }

  /**
   * The ffmpeg argument list, built by extension as the source does: input and
   * filter, the quality options (`-q:v` for images; `-crf` and a copied audio
   * stream for videos), then `-y` and the output.
   */
  method BuildCommand(input: string, filter: string, cfg: Config, output: string) returns (cmd: seq<string>)
    ensures |cmd| >= 7 && cmd[..5] == ["ffmpeg", "-i", input, "-vf", filter]
    ensures cmd[|cmd| - 2..] == ["-y", output]
    ensures IsImage(input) ==> cmd[5..|cmd| - 2] == ["-q:v", Decimal(cfg.imageQuality)]
    ensures !IsImage(input) ==> cmd[5..|cmd| - 2] == ["-crf", Decimal(cfg.videoQuality), "-c:a", "copy"]
  {
    cmd := ["ffmpeg", "-i", input, "-vf", filter];
    if IsImage(input) {
      cmd := cmd + ["-q:v", Decimal(cfg.imageQuality)];
    } else {
      cmd := cmd + ["-crf", Decimal(cfg.videoQuality), "-c:a", "copy"];
    }
    cmd := cmd + ["-y", output];
  }

  /**
   * The command `apply_watermark` runs and the path it returns: the filter
   * holds the escaped text, the slashed font path and the placement for the
   * position; the command overwrites the output path it returns.
   */
  method WatermarkCommand(input: string, text: string, requested: Option<string>, position: string,
                          cfg: Config, timestamp: string)
    returns (cmd: seq<string>, output: string)
    ensures output == OutputPath(input, requested, cfg.outputFolder, timestamp)
    ensures |cmd| >= 7 && cmd[..5] == ["ffmpeg", "-i", input, "-vf",
      DrawtextFilter(FilterFontPath(cfg.fontFile), EscapeText(text), PositionExpr(position, cfg.padding), cfg)]
    ensures cmd[|cmd| - 2..] == ["-y", output]
    ensures IsImage(input) ==> cmd[5..|cmd| - 2] == ["-q:v", Decimal(cfg.imageQuality)]
    ensures !IsImage(input) ==> cmd[5..|cmd| - 2] == ["-crf", Decimal(cfg.videoQuality), "-c:a", "copy"]
  {
    if requested.Some? {
      output := requested.value;
    } else {
      output := DefaultOutputPath(input, cfg.outputFolder, timestamp);
    }
    var escapedText := EscapeText(text);
    var fontPath := FilterFontPath(cfg.fontFile);
    var place := PositionExpr(position, cfg.padding);
    cmd := BuildCommand(input, DrawtextFilter(fontPath, escapedText, place, cfg), cfg, output);
  }

  // ---------------------------------------------------------------- process_files

  /** The `processed` list after the given files: `(input, output)` for each success, in order. */
  function ProcessedOf(files: seq<string>, outcome: nat -> EngineResult): seq<Processed>
  {
    if files == [] then []
    else
      var rest, f := ProcessedOf(files[..|files| - 1], outcome), files[|files| - 1];
      match outcome(|files| - 1)
      case Produced(out) => rest + [Processed(f, out)]
      case Raised(_) => rest
  }

  /** The `skipped` list after the given files: `(file, str(exc))` for each failure, in order. */
  function SkippedOf(files: seq<string>, outcome: nat -> EngineResult): seq<Skipped>
  {
    if files == [] then []
    else
      var rest, f := SkippedOf(files[..|files| - 1], outcome), files[|files| - 1];
      match outcome(|files| - 1)
      case Produced(_) => rest
      case Raised(msg) => rest + [Skipped(f, msg)]
  }

  function ProcessedInputs(ps: seq<Processed>): seq<string>
  {
    if ps == [] then [] else ProcessedInputs(ps[..|ps| - 1]) + [ps[|ps| - 1].input]
  }

  function SkippedFiles(ss: seq<Skipped>): seq<string>
  {
    if ss == [] then [] else SkippedFiles(ss[..|ss| - 1]) + [ss[|ss| - 1].file]
  }

  /** How one more attempted file extends the two lists. */
  lemma BatchStep(files: seq<string>, outcome: nat -> EngineResult)
    requires files != []
    ensures var n := |files| - 1;
      && ProcessedOf(files, outcome) == ProcessedOf(files[..n], outcome)
           + (if outcome(n).Produced? then [Processed(files[n], outcome(n).outputPath)] else [])
      && SkippedOf(files, outcome) == SkippedOf(files[..n], outcome)
           + (if outcome(n).Raised? then [Skipped(files[n], outcome(n).message)] else [])
  {
  }

  lemma ProcessedInputsAppend(ps: seq<Processed>, p: Processed)
    ensures ProcessedInputs(ps + [p]) == ProcessedInputs(ps) + [p.input]
  {
    assert (ps + [p])[..|ps|] == ps;
  }

  lemma SkippedFilesAppend(ss: seq<Skipped>, x: Skipped)
    ensures SkippedFiles(ss + [x]) == SkippedFiles(ss) + [x.file]
  {
    assert (ss + [x])[..|ss|] == ss;
  }

  /** One list entry per attempted file. */
  lemma {:induction false} BatchCount(files: seq<string>, outcome: nat -> EngineResult)
    ensures |ProcessedOf(files, outcome)| + |SkippedOf(files, outcome)| == |files|
  {
    if files != [] {
      BatchCount(files[..|files| - 1], outcome);
      BatchStep(files, outcome);
    }
  }

  /**
   * Every attempted file lands in exactly one of the two lists: together they
   * hold the input list's files, each as often as it was given.
   */
  lemma {:induction false} BatchPartition(files: seq<string>, outcome: nat -> EngineResult)
    ensures multiset(ProcessedInputs(ProcessedOf(files, outcome))) + multiset(SkippedFiles(SkippedOf(files, outcome)))
              == multiset(files)
  {
    if files != [] {
      var n := |files| - 1;
      BatchPartition(files[..n], outcome);
      PartitionStep(files, outcome);
      MultisetSnoc(files);
    }
  }

  lemma MultisetSnoc(files: seq<string>)
    requires files != []
    ensures multiset(files) == multiset(files[..|files| - 1]) + multiset{files[|files| - 1]}
  {
    assert files == files[..|files| - 1] + [files[|files| - 1]];
  }

  /** One more file adds exactly that file to one of the two lists. */
  lemma PartitionStep(files: seq<string>, outcome: nat -> EngineResult)
    requires files != []
    ensures var n := |files| - 1;
      multiset(ProcessedInputs(ProcessedOf(files, outcome))) + multiset(SkippedFiles(SkippedOf(files, outcome)))
        == multiset(ProcessedInputs(ProcessedOf(files[..n], outcome)))
           + multiset(SkippedFiles(SkippedOf(files[..n], outcome))) + multiset{files[n]}
  {
    var n := |files| - 1;
    var f := files[n];
    var ps, ss := ProcessedOf(files[..n], outcome), SkippedOf(files[..n], outcome);
    BatchStep(files, outcome);
    if outcome(n).Produced? {
      ProcessedInputsAppend(ps, Processed(f, outcome(n).outputPath));
    } else {
      SkippedFilesAppend(ss, Skipped(f, outcome(n).message));
    }
  }

  /** The lists only grow: the lists after `i` files are prefixes of those after `j`. */
  lemma {:induction false} BatchListsGrow(files: seq<string>, outcome: nat -> EngineResult, i: nat, j: nat)
    requires i <= j <= |files|
    ensures ProcessedOf(files[..i], outcome) <= ProcessedOf(files[..j], outcome)
    ensures SkippedOf(files[..i], outcome) <= SkippedOf(files[..j], outcome)
    decreases j - i
  {
    if i < j {
      BatchListsGrow(files, outcome, i, j - 1);
      assert files[..j][..j - 1] == files[..j - 1];
    }
  }

  /**
   * What `process_files` records for one file: the three checks in order
   * (exists, accepted extension, not already marked), then the engine's answer.
   */
  function Verdict(file: string, isFile: bool, engine: EngineResult): (v: EngineResult)
    ensures v.Produced? <==> isFile && HasValidExtension(file) && !Contains(file, Suffix) && engine.Produced?
  {
    if !isFile then Raised("File not found")
    else if !HasValidExtension(file) then Raised("Unsupported file type")
    else if Contains(file, Suffix) then Raised("Already watermarked")
    else engine
  }

  /** The verdicts on a file list, by position; `engine(i)` answers for the `i`-th file. */
  function Verdicts(files: seq<string>, isFile: string -> bool, engine: nat -> EngineResult): nat -> EngineResult
  {
    (i: nat) => if i < |files| then Verdict(files[i], isFile(files[i]), engine(i)) else engine(i)
  }

  /**
   * `process_files`: every file lands in `processed` with its output or in
   * `skipped` with the reason, in input order.
   */
  method ProcessFiles(files: seq<string>, isFile: string -> bool, engine: nat -> EngineResult)
    returns (processed: seq<Processed>, skipped: seq<Skipped>)
    ensures processed == ProcessedOf(files, Verdicts(files, isFile, engine))
    ensures skipped == SkippedOf(files, Verdicts(files, isFile, engine))
  {
    ghost var verdicts := Verdicts(files, isFile, engine);
    processed, skipped := [], [];
    for i := 0 to |files|
      invariant processed == ProcessedOf(files[..i], verdicts)
      invariant skipped == SkippedOf(files[..i], verdicts)
    {
      var f := files[i];
      BatchStep(files[..i + 1], verdicts);
      assert files[..i + 1][..i] == files[..i];
      if !isFile(f) {
        skipped := skipped + [Skipped(f, "File not found")];
      } else if !HasValidExtension(f) {
        skipped := skipped + [Skipped(f, "Unsupported file type")];
      } else if Contains(f, Suffix) {
        skipped := skipped + [Skipped(f, "Already watermarked")];
      } else {
        match engine(i)
        case Produced(out) =>
          processed := processed + [Processed(f, out)];
        case Raised(msg) =>
          skipped := skipped + [Skipped(f, msg)];
      }
    }
    assert files[..|files|] == files;
  }

  /** Only files that exist, have an accepted extension and carry no marker reach the engine and `processed`. */
  lemma {:induction false} ProcessedAccepted(files: seq<string>, isFile: string -> bool, engine: nat -> EngineResult)
    ensures forall p :: p in ProcessedOf(files, Verdicts(files, isFile, engine)) ==>
      isFile(p.input) && HasValidExtension(p.input) && !Contains(p.input, Suffix)
  {
    var vs := Verdicts(files, isFile, engine);
    if files != [] {
      var n := |files| - 1;
      var init := files[..n];
      ProcessedAccepted(init, isFile, engine);
      ProcessedOfAgree(init, Verdicts(init, isFile, engine), vs);
      BatchStep(files, vs);
    }
  }

  /** The lists depend only on the outcomes of the files actually given. */
  lemma {:induction false} ProcessedOfAgree(files: seq<string>, o1: nat -> EngineResult, o2: nat -> EngineResult)
    requires forall i :: 0 <= i < |files| ==> o1(i) == o2(i)
    ensures ProcessedOf(files, o1) == ProcessedOf(files, o2)
    ensures SkippedOf(files, o1) == SkippedOf(files, o2)
  {
    if files != [] {
      ProcessedOfAgree(files[..|files| - 1], o1, o2);
    }
  }

  /** A file `apply_watermark` produced under its default name is never watermarked again: a later run skips it. */
  lemma OutputsNotReprocessed(input: string, outputFolder: string, timestamp: string, isFile: bool, engine: EngineResult)
    requires '/' !in timestamp
    ensures Verdict(DefaultOutputPath(input, outputFolder, timestamp), isFile, engine).Raised?
  {
    DefaultOutputPathShape(input, outputFolder, timestamp);
  }
}
