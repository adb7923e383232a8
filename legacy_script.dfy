/**
 * The legacy command-line script watermark.py at the repository root. Python
 * binds a name to its last definition, so the helpers in force are the later
 * `is_valid_hex_color` (the bare pattern) and `escape_ffmpeg_text` (single
 * backslashes). Its `get_env_var`, drawtext filter, quality options and
 * command layout are the engine's and are reused from `MediaEngine`. What
 * differs is modelled here: the escaping, the defaults of `load_config`, the
 * file validation loop in `main`, the position flags and the output path.
 */
module LegacyScript {
  import opened Wrappers
  import opened Text
  import MediaEngine

  // ---------------------------------------------------------------- colour check

  /** The `is_valid_hex_color` in force: the pattern alone, without the empty-string guard. */
  predicate IsValidHexColor(s: string)
  {
    MediaEngine.MatchesHexPattern(s)
  }

  /** It accepts exactly what the engine's guarded check accepts. */
  lemma HexCheckAgrees(s: string)
    ensures IsValidHexColor(s) <==> MediaEngine.IsValidHexColor(s)
  {
    MediaEngine.HexGuardRedundant(s);
  }

  // ---------------------------------------------------------------- drawtext escaping

  /**
   * The `escape_ffmpeg_text` in force: no empty-string guard, then three
   * `replace` passes in order: a backslash becomes two, a quote becomes
   * `'\''` and a colon becomes `\:`.
   */
  function EscapeText(text: string): string
  {
    ReplaceAll(ReplaceAll(ReplaceAll(text, '\\', "\\\\"), '\'', "'\\''"), ':', "\\:")
  }

  /** What one character of the text becomes. */
  function EscapeChar(c: char): (e: string)
    ensures e != []
  {
    if c == '\\' then "\\\\"
    else if c == '\'' then "'\\''"
    else if c == ':' then "\\:"
    else [c]
  }

  /** Reference definition: the text escaped one character at a time. */
  function EscapeEach(text: string): string
  {
    if text == [] then [] else EscapeChar(text[0]) + EscapeEach(text[1..])
  }

  /** Each pass works piecewise, so the three do. */
  lemma EscapeAppend(a: string, b: string)
    ensures EscapeText(a + b) == EscapeText(a) + EscapeText(b)
  {
    ReplaceAllAppend(a, b, '\\', "\\\\");
    var a1, b1 := ReplaceAll(a, '\\', "\\\\"), ReplaceAll(b, '\\', "\\\\");
    ReplaceAllAppend(a1, b1, '\'', "'\\''");
    var a2, b2 := ReplaceAll(a1, '\'', "'\\''"), ReplaceAll(b1, '\'', "'\\''");
    ReplaceAllAppend(a2, b2, ':', "\\:");
  }

  /** On one character the passes give `EscapeChar`: no pass rewrites what an earlier one produced. */
  lemma EscapeSingle(c: char)
    ensures EscapeText([c]) == EscapeChar(c)
  {
    ReplaceAllSingle(c, '\\', "\\\\");
    var s1 := if c == '\\' then "\\\\" else [c];
    ReplaceAllSingle(c, '\'', "'\\''");
    var s2 := if c == '\'' then "'\\''" else if c == '\\' then "\\\\" else [c];
    if c == '\\' {
      ReplaceAllAbsent(s1, '\'', "'\\''");
    }
    ReplaceAllSingle(c, ':', "\\:");
    if c != ':' {
      ReplaceAllAbsent(s2, ':', "\\:");
    }
  }

  /** The three passes escape each character on its own. */
  lemma {:induction false} EscapeTextEach(text: string)
    ensures EscapeText(text) == EscapeEach(text)
  {
    if text == [] {
      assert EscapeText([]) == [];
    } else {
      EscapeTextEach(text[1..]);
      EscapeAppend([text[0]], text[1..]);
      EscapeSingle(text[0]);
      assert [text[0]] + text[1..] == text;
    }
  }

  /** Length grows by one per backslash, three per quote and one per colon. */
  lemma {:induction false} EscapeTextLength(text: string)
    ensures |EscapeText(text)| == |text| + Count(text, '\\') + 3 * Count(text, '\'') + Count(text, ':')
  {
    EscapeTextEach(text);
    if text != [] {
      EscapeTextLength(text[1..]);
      EscapeTextEach(text[1..]);
    }
  }

  /** Text without backslashes, quotes and colons passes through unchanged. */
  lemma EscapeTextPlain(text: string)
    requires '\\' !in text && '\'' !in text && ':' !in text
    ensures EscapeText(text) == text
  {
    EscapeTextEach(text);
    EscapeEachPlain(text);
  }

  /** Escaping character by character leaves such a text unchanged. */
  lemma {:induction false} EscapeEachPlain(text: string)
    requires '\\' !in text && '\'' !in text && ':' !in text
    ensures EscapeEach(text) == text
  {
    if text != [] {
      EscapeEachPlain(text[1..]);
      assert EscapeChar(text[0]) == [text[0]];
      assert text == [text[0]] + text[1..];
    }
  }


  /** Every colon of the escaped text is preceded by a backslash. */
  lemma {:induction false} EscapeTextColons(text: string)
    ensures MediaEngine.ColonsEscaped(EscapeText(text))
  {
    EscapeTextEach(text);
    if text != [] {
      EscapeTextColons(text[1..]);
      EscapeTextEach(text[1..]);
      MediaEngine.ColonsEscapedAppend(EscapeChar(text[0]), EscapeEach(text[1..]));
    }
  }

  /**
   * Reads an escaped text back, token by token: a quote opens the
   * four-character quote token, a backslash followed by a colon is a colon,
   * a backslash followed by one more character is a backslash.
   */
  function Unescape(s: string): string
    decreases |s|
  {
    if s == [] then []
    else if s[0] == '\'' && |s| >= 4 then "'" + Unescape(s[4..])
    else if s[0] == '\\' && |s| >= 2 && s[1] == ':' then ":" + Unescape(s[2..])
    else if s[0] == '\\' && |s| >= 2 then "\\" + Unescape(s[2..])
    else [s[0]] + Unescape(s[1..])
  }

  /** One escaped character is read back, whatever follows it. */
  lemma UnescapeChar(c: char, rest: string)
    ensures Unescape(EscapeChar(c) + rest) == [c] + Unescape(rest)
  {
    var s := EscapeChar(c) + rest;
    if c == '\'' {
      assert s[0] == '\'' && s[4..] == rest;
    } else if c == ':' {
      assert s[0] == '\\' && s[1] == ':' && s[2..] == rest;
    } else if c == '\\' {
      assert s[0] == '\\' && s[1] == '\\' && s[2..] == rest;
    } else {
      assert s[0] == c && s[1..] == rest;
    }
  }

  /** Escaping loses nothing: the original text can be read back from the escaped one. */
  lemma {:induction false} UnescapeEscapeText(text: string)
    ensures Unescape(EscapeText(text)) == text
  {
    EscapeTextEach(text);
    if text != [] {
      UnescapeEscapeText(text[1..]);
      EscapeTextEach(text[1..]);
      UnescapeChar(text[0], EscapeEach(text[1..]));
      assert [text[0]] + text[1..] == text;
    }
  }

  /** The two escapings treat every character but the quote and the colon alike. */
  lemma {:induction false} EscapeEachAgrees(text: string)
    requires '\'' !in text && ':' !in text
    ensures MediaEngine.EscapeEach(text) == EscapeEach(text)
  {
    if text != [] {
      EscapeEachAgrees(text[1..]);
    }
  }

  /**
   * The script and the engine escape a text the same way exactly when it has
   * no quote and no colon: on those the engine writes one backslash more.
   */
  lemma EscapeComparison(text: string)
    ensures MediaEngine.EscapeText(text) == EscapeText(text) <==> '\'' !in text && ':' !in text
  {
    MediaEngine.EscapeTextLength(text);
    EscapeTextLength(text);
    CountZero(text, '\'');
    CountZero(text, ':');
    if '\'' !in text && ':' !in text {
      MediaEngine.EscapeTextEach(text);
      EscapeTextEach(text);
      EscapeEachAgrees(text);
    }
  }

  // ---------------------------------------------------------------- configuration

  /** `load_config()`: the nine settings read from the environment; `None` for a bad number or colour. */
  function LoadConfig(env: map<string, string>): (r: Option<MediaEngine.Config>)
    ensures r.Some? ==> IsValidHexColor(r.value.fontColor) && IsValidHexColor(r.value.borderColor)
  {
    CheckedConfig(
      MediaEngine.GetEnvVar(env, "OUTPUT_FOLDER", ""), MediaEngine.ReadInt(env, "PADDING", "10"),
      MediaEngine.GetEnvVar(env, "FONT_COLOR", "FFFFFF"), MediaEngine.GetEnvVar(env, "BORDER_COLOR", "FFC0CB"),
      MediaEngine.ReadInt(env, "BORDER_THICKNESS", "3"), MediaEngine.ReadInt(env, "FONT_SIZE", "48"),
      MediaEngine.ReadInt(env, "VIDEO_QUALITY", "18"), MediaEngine.ReadInt(env, "IMAGE_QUALITY", "2"),
      MediaEngine.GetEnvVar(env, "FONT_FILE", MediaEngine.DefaultFontFile))
  }

  /**
   * The dictionary `load_config` returns from the values it read: `None` when
   * a number failed `int()` or a colour fails the check, the values otherwise.
   */
  function CheckedConfig(outputFolder: string, padding: Option<int>, fontColor: string, borderColor: string,
                         thickness: Option<int>, size: Option<int>, videoQuality: Option<int>,
                         imageQuality: Option<int>, fontFile: string): (r: Option<MediaEngine.Config>)
    ensures r.Some? <==> padding.Some? && thickness.Some? && size.Some? && videoQuality.Some? && imageQuality.Some?
                         && IsValidHexColor(fontColor) && IsValidHexColor(borderColor)
    ensures r.Some? ==> r.value.fontColor == fontColor && r.value.borderColor == borderColor
  {
    if padding.None? || thickness.None? || size.None? || videoQuality.None? || imageQuality.None? then None
    else if !IsValidHexColor(fontColor) || !IsValidHexColor(borderColor) then None
    else Some(MediaEngine.Config(outputFolder, padding.value, fontColor, borderColor, thickness.value, size.value,
                                 videoQuality.value, imageQuality.value, fontFile))
  }

  /** The script's defaults: padding 10, white text, pink border of 3, size 48. */
  const Defaults: MediaEngine.Config :=
    MediaEngine.Config("", 10, "FFFFFF", "FFC0CB", 3, 48, 18, 2, MediaEngine.DefaultFontFile)

  /** With nothing set, `load_config` returns the defaults. */
  lemma LoadConfigDefaults()
    ensures LoadConfig(map[]) == Some(Defaults)
  {
    DefaultStringsRead();
    DefaultIntsRead();
    MediaEngine.DefaultColorsValid();
    LoadConfigReads(map[], Defaults);
  }

  /** `load_config` returns the settings its nine reads spell out, when those pass its checks. */
  lemma LoadConfigReads(env: map<string, string>, c: MediaEngine.Config)
    requires MediaEngine.GetEnvVar(env, "OUTPUT_FOLDER", "") == c.outputFolder
    requires MediaEngine.GetEnvVar(env, "FONT_COLOR", "FFFFFF") == c.fontColor
    requires MediaEngine.GetEnvVar(env, "BORDER_COLOR", "FFC0CB") == c.borderColor
    requires MediaEngine.GetEnvVar(env, "FONT_FILE", MediaEngine.DefaultFontFile) == c.fontFile
    requires MediaEngine.ReadInt(env, "PADDING", "10") == Some(c.padding)
    requires MediaEngine.ReadInt(env, "BORDER_THICKNESS", "3") == Some(c.borderThickness)
    requires MediaEngine.ReadInt(env, "FONT_SIZE", "48") == Some(c.fontSize)
    requires MediaEngine.ReadInt(env, "VIDEO_QUALITY", "18") == Some(c.videoQuality)
    requires MediaEngine.ReadInt(env, "IMAGE_QUALITY", "2") == Some(c.imageQuality)
    requires IsValidHexColor(c.fontColor) && IsValidHexColor(c.borderColor)
    ensures LoadConfig(env) == Some(c)
  {
  }

  /** With nothing set, each string reads as its default. */
  lemma DefaultStringsRead()
    ensures MediaEngine.GetEnvVar(map[], "OUTPUT_FOLDER", "") == ""
    ensures MediaEngine.GetEnvVar(map[], "FONT_COLOR", "FFFFFF") == "FFFFFF"
    ensures MediaEngine.GetEnvVar(map[], "BORDER_COLOR", "FFC0CB") == "FFC0CB"
    ensures MediaEngine.GetEnvVar(map[], "FONT_FILE", MediaEngine.DefaultFontFile) == MediaEngine.DefaultFontFile
  {
    var env: map<string, string> := map[];
    MediaEngine.DefaultsTrimmed();
    MediaEngine.GetEnvVarTrimmed(env, "OUTPUT_FOLDER", "");
    MediaEngine.GetEnvVarTrimmed(env, "FONT_COLOR", "FFFFFF");
    MediaEngine.GetEnvVarTrimmed(env, "BORDER_COLOR", "FFC0CB");
    MediaEngine.GetEnvVarTrimmed(env, "FONT_FILE", MediaEngine.DefaultFontFile);
  }

  /** With nothing set, each number reads as its default. */
  lemma DefaultIntsRead()
    ensures MediaEngine.ReadInt(map[], "PADDING", "10") == Some(10)
    ensures MediaEngine.ReadInt(map[], "BORDER_THICKNESS", "3") == Some(3)
    ensures MediaEngine.ReadInt(map[], "FONT_SIZE", "48") == Some(48)
    ensures MediaEngine.ReadInt(map[], "VIDEO_QUALITY", "18") == Some(18)
    ensures MediaEngine.ReadInt(map[], "IMAGE_QUALITY", "2") == Some(2)
  {
    var env: map<string, string> := map[];
    MediaEngine.DecimalSmall();
    MediaEngine.ReadIntDefault(env, "PADDING", "10", 10);
    MediaEngine.ReadIntDefault(env, "BORDER_THICKNESS", "3", 3);
    MediaEngine.ReadIntDefault(env, "FONT_SIZE", "48", 48);
    MediaEngine.ReadIntDefault(env, "VIDEO_QUALITY", "18", 18);
    MediaEngine.ReadIntDefault(env, "IMAGE_QUALITY", "2", 2);
  }

  /** `env` spells out the given settings, one variable per key, numbers in decimal. */
  predicate Describes(env: map<string, string>, c: MediaEngine.Config)
  {
    && "OUTPUT_FOLDER" in env && env["OUTPUT_FOLDER"] == c.outputFolder
    && "PADDING" in env && env["PADDING"] == Decimal(c.padding)
    && "FONT_COLOR" in env && env["FONT_COLOR"] == c.fontColor
    && "BORDER_COLOR" in env && env["BORDER_COLOR"] == c.borderColor
    && "BORDER_THICKNESS" in env && env["BORDER_THICKNESS"] == Decimal(c.borderThickness)
    && "FONT_SIZE" in env && env["FONT_SIZE"] == Decimal(c.fontSize)
    && "VIDEO_QUALITY" in env && env["VIDEO_QUALITY"] == Decimal(c.videoQuality)
    && "IMAGE_QUALITY" in env && env["IMAGE_QUALITY"] == Decimal(c.imageQuality)
    && "FONT_FILE" in env && env["FONT_FILE"] == c.fontFile
  }

  /** The string settings read back from an environment that describes them. */
  lemma StringsRead(env: map<string, string>, c: MediaEngine.Config)
    requires Describes(env, c)
    requires |c.fontColor| == 6 && IsValidHexColor(c.fontColor)
    requires |c.borderColor| == 6 && IsValidHexColor(c.borderColor)
    requires MediaEngine.Trimmed(c.outputFolder) && MediaEngine.Trimmed(c.fontFile)
    ensures MediaEngine.GetEnvVar(env, "OUTPUT_FOLDER", "") == c.outputFolder
    ensures MediaEngine.GetEnvVar(env, "FONT_COLOR", "FFFFFF") == c.fontColor
    ensures MediaEngine.GetEnvVar(env, "BORDER_COLOR", "FFC0CB") == c.borderColor
    ensures MediaEngine.GetEnvVar(env, "FONT_FILE", MediaEngine.DefaultFontFile) == c.fontFile
  {
    MediaEngine.HexTrimmed(c.fontColor);
    MediaEngine.HexTrimmed(c.borderColor);
    MediaEngine.GetEnvVarTrimmed(env, "OUTPUT_FOLDER", "");
    MediaEngine.GetEnvVarTrimmed(env, "FONT_COLOR", "FFFFFF");
    MediaEngine.GetEnvVarTrimmed(env, "BORDER_COLOR", "FFC0CB");
    MediaEngine.GetEnvVarTrimmed(env, "FONT_FILE", MediaEngine.DefaultFontFile);
  }

  /** The numeric settings read back from an environment that describes them. */
  lemma IntsRead(env: map<string, string>, c: MediaEngine.Config)
    requires Describes(env, c)
    ensures MediaEngine.ReadInt(env, "PADDING", "10") == Some(c.padding)
    ensures MediaEngine.ReadInt(env, "BORDER_THICKNESS", "3") == Some(c.borderThickness)
    ensures MediaEngine.ReadInt(env, "FONT_SIZE", "48") == Some(c.fontSize)
    ensures MediaEngine.ReadInt(env, "VIDEO_QUALITY", "18") == Some(c.videoQuality)
    ensures MediaEngine.ReadInt(env, "IMAGE_QUALITY", "2") == Some(c.imageQuality)
  {
    MediaEngine.ReadIntDecimal(env, "PADDING", "10", c.padding);
    MediaEngine.ReadIntDecimal(env, "BORDER_THICKNESS", "3", c.borderThickness);
    MediaEngine.ReadIntDecimal(env, "FONT_SIZE", "48", c.fontSize);
    MediaEngine.ReadIntDecimal(env, "VIDEO_QUALITY", "18", c.videoQuality);
    MediaEngine.ReadIntDecimal(env, "IMAGE_QUALITY", "2", c.imageQuality);
  }

  /**
   * Loading is faithful: settings whose colours are six hex digits and whose
   * strings need no trimming load back from an environment that spells them out.
   */
  lemma LoadConfigRoundTrip(env: map<string, string>, c: MediaEngine.Config)
    requires Describes(env, c)
    requires |c.fontColor| == 6 && IsValidHexColor(c.fontColor)
    requires |c.borderColor| == 6 && IsValidHexColor(c.borderColor)
    requires MediaEngine.Trimmed(c.outputFolder) && MediaEngine.Trimmed(c.fontFile)
    ensures LoadConfig(env) == Some(c)
  {
    StringsRead(env, c);
    IntsRead(env, c);
    LoadConfigReads(env, c);
  }

  /** A set variable reads the same whatever its default. */
  lemma SetVariable(env: map<string, string>, key: string, d1: string, d2: string)
    requires key in env
    ensures MediaEngine.GetEnvVar(env, key, d1) == MediaEngine.GetEnvVar(env, key, d2)
    ensures MediaEngine.ReadInt(env, key, d1) == MediaEngine.ReadInt(env, key, d2)
  {
  }

  /** Values the service's checks pass, the script's checks pass too, giving the service's engine settings. */
  lemma CheckedAgrees(outputFolder: string, padding: Option<int>, fontColor: string, borderColor: string,
                      thickness: Option<int>, size: Option<int>, videoQuality: Option<int>,
                      imageQuality: Option<int>, fontFile: string, uploadFolder: string, maxUploadMb: Option<int>)
    requires MediaEngine.CheckedSettings(outputFolder, padding, fontColor, borderColor, thickness, size,
                                         videoQuality, imageQuality, fontFile, uploadFolder, maxUploadMb).Some?
    ensures CheckedConfig(outputFolder, padding, fontColor, borderColor, thickness, size, videoQuality,
                          imageQuality, fontFile)
         == Some(MediaEngine.CheckedSettings(outputFolder, padding, fontColor, borderColor, thickness, size,
                                             videoQuality, imageQuality, fontFile, uploadFolder, maxUploadMb).value.engine)
  {
    HexCheckAgrees(fontColor);
    HexCheckAgrees(borderColor);
  }

  /**
   * Only the defaults differ: when the five variables whose defaults differ
   * are set, the script loads the engine settings the service loads.
   */
  lemma LoadConfigAgrees(env: map<string, string>)
    requires "PADDING" in env && "FONT_COLOR" in env && "BORDER_COLOR" in env
    requires "BORDER_THICKNESS" in env && "FONT_SIZE" in env
    requires MediaEngine.LoadConfig(env).Some?
    ensures LoadConfig(env) == Some(MediaEngine.LoadConfig(env).value.engine)
  {
    SetVariable(env, "PADDING", "10", "0");
    SetVariable(env, "FONT_COLOR", "FFFFFF", "FFC0CB");
    SetVariable(env, "BORDER_COLOR", "FFC0CB", "FFFFFF");
    SetVariable(env, "BORDER_THICKNESS", "3", "2");
    SetVariable(env, "FONT_SIZE", "48", "46");
    CheckedAgrees(
      MediaEngine.GetEnvVar(env, "OUTPUT_FOLDER", ""), MediaEngine.ReadInt(env, "PADDING", "0"),
      MediaEngine.GetEnvVar(env, "FONT_COLOR", "FFC0CB"), MediaEngine.GetEnvVar(env, "BORDER_COLOR", "FFFFFF"),
      MediaEngine.ReadInt(env, "BORDER_THICKNESS", "2"), MediaEngine.ReadInt(env, "FONT_SIZE", "46"),
      MediaEngine.ReadInt(env, "VIDEO_QUALITY", "18"), MediaEngine.ReadInt(env, "IMAGE_QUALITY", "2"),
      MediaEngine.GetEnvVar(env, "FONT_FILE", MediaEngine.DefaultFontFile),
      MediaEngine.GetEnvVar(env, "UPLOAD_FOLDER", "./uploads"),
      MediaEngine.ReadInt(env, "MAX_UPLOAD_SIZE_MB", "1024"));
  }

  // ---------------------------------------------------------------- file validation

  /** `os.path.basename`: the part after the last separator. */
  function BaseName(p: string): (n: string)
    ensures '/' !in n && MediaEngine.DirPart(p) + n == p
  {
    MediaEngine.FileName(p)
  }

  /** `main`'s test for one file: it exists, has an accepted extension, and its base name carries no marker. */
  predicate Accepted(file: string, isFile: bool)
  {
    isFile && MediaEngine.HasValidExtension(file) && !Contains(BaseName(file), MediaEngine.Suffix)
  }

  /** The files that pass, in input order. */
  function ValidOf(files: seq<string>, isFile: string -> bool): (vs: seq<string>)
    ensures |vs| <= |files|
  {
    if files == [] then []
    else
      var f := files[|files| - 1];
      ValidOf(files[..|files| - 1], isFile) + (if Accepted(f, isFile(f)) then [f] else [])
  }

  /** The files that do not, in input order. */
  function RejectedOf(files: seq<string>, isFile: string -> bool): (rs: seq<string>)
    ensures |rs| <= |files|
  {
    if files == [] then []
    else
      var f := files[|files| - 1];
      RejectedOf(files[..|files| - 1], isFile) + (if Accepted(f, isFile(f)) then [] else [f])
  }

  /** The validation loop of `main`: each file goes to `valid` or `skipped`, in order. */
  method ValidateFiles(files: seq<string>, isFile: string -> bool) returns (valid: seq<string>, skipped: seq<string>)
    ensures valid == ValidOf(files, isFile) && skipped == RejectedOf(files, isFile)
  {
    valid, skipped := [], [];
    for i := 0 to |files|
      invariant valid == ValidOf(files[..i], isFile)
      invariant skipped == RejectedOf(files[..i], isFile)
    {
      var f := files[i];
      assert files[..i + 1][..i] == files[..i];
      if isFile(f) && MediaEngine.HasValidExtension(f) && !Contains(BaseName(f), MediaEngine.Suffix) {
        valid := valid + [f];
      } else {
        skipped := skipped + [f];
      }
    }
    assert files[..|files|] == files;
  }

  /** The two lists split the input: together they hold every file as often as it was given. */
  lemma {:induction false} ValidationPartition(files: seq<string>, isFile: string -> bool)
    ensures multiset(ValidOf(files, isFile)) + multiset(RejectedOf(files, isFile)) == multiset(files)
  {
    if files != [] {
      ValidationPartition(files[..|files| - 1], isFile);
      MediaEngine.MultisetSnoc(files);
    }
  }

  /** Every valid file passes the test and every skipped one fails it. */
  lemma {:induction false} ValidationSound(files: seq<string>, isFile: string -> bool)
    ensures forall f :: f in ValidOf(files, isFile) ==> Accepted(f, isFile(f))
    ensures forall f :: f in RejectedOf(files, isFile) ==> !Accepted(f, isFile(f))
  {
    if files != [] {
      ValidationSound(files[..|files| - 1], isFile);
    }
  }

  /** A file the engine's `process_files` would accept passes the script's test too. */
  lemma EngineStricter(file: string, isFile: bool, engine: MediaEngine.EngineResult)
    requires MediaEngine.Verdict(file, isFile, engine).Produced?
    ensures Accepted(file, isFile)
  {
    if Contains(BaseName(file), MediaEngine.Suffix) {
      ContainsRight(MediaEngine.DirPart(file), BaseName(file), MediaEngine.Suffix);
    }
  }

  /**
   * The converse fails: a file whose directory carries the marker and whose
   * base name does not is skipped by the engine as already watermarked but
   * accepted by the script.
   */
  lemma MarkedDirectory(dir: string, name: string, engine: MediaEngine.EngineResult)
    requires Contains(dir, MediaEngine.Suffix) && dir[|dir| - 1] == '/'
    requires '/' !in name && !Contains(name, MediaEngine.Suffix)
    requires MediaEngine.HasValidExtension(dir + name)
    ensures Accepted(dir + name, true)
    ensures MediaEngine.Verdict(dir + name, true, engine) == MediaEngine.Raised("Already watermarked")
  {
    MediaEngine.SplitPath(dir, name);
    ContainsLeft(dir, name, MediaEngine.Suffix);
  }

  // ---------------------------------------------------------------- position flags

  /** The five mutually exclusive position flags of the command line. */
  datatype Flags = Flags(topLeft: bool, topRight: bool, bottomLeft: bool, bottomRight: bool, center: bool)

  /** The position the flags name, checked in the order of `main`'s branches; no flag means top-left. */
  function FlagPosition(flags: Flags): string
  {
    if flags.topRight then "top-right"
    else if flags.bottomLeft then "bottom-left"
    else if flags.bottomRight then "bottom-right"
    else if flags.center then "center"
    else "top-left"
  }

  /** `main`'s position branch: the `x` and `y` expressions agree with the engine's placement for the named position. */
  method Position(flags: Flags, padding: int) returns (x: string, y: string)
    ensures MediaEngine.Placement(x, y) == MediaEngine.PositionExpr(FlagPosition(flags), padding)
  {
    if flags.topRight {
      x := "w-text_w-" + Decimal(padding);
      y := Decimal(padding);
    } else if flags.bottomLeft {
      x := Decimal(padding);
      y := "h-text_h-" + Decimal(padding);
    } else if flags.bottomRight {
      x := "w-text_w-" + Decimal(padding);
      y := "h-text_h-" + Decimal(padding);
    } else if flags.center {
      x := "(w-text_w)/2";
      y := "(h-text_h)/2";
    } else {
      x := Decimal(padding);
      y := Decimal(padding);
    }
  }

  /** With exactly one flag set, that flag's position is chosen, and with none, top-left. */
  lemma FlagPositionExact(flags: Flags)
    ensures flags == Flags(false, false, false, false, false) ==> FlagPosition(flags) == "top-left"
    ensures flags == Flags(true, false, false, false, false) ==> FlagPosition(flags) == "top-left"
    ensures flags == Flags(false, true, false, false, false) ==> FlagPosition(flags) == "top-right"
    ensures flags == Flags(false, false, true, false, false) ==> FlagPosition(flags) == "bottom-left"
    ensures flags == Flags(false, false, false, true, false) ==> FlagPosition(flags) == "bottom-right"
    ensures flags == Flags(false, false, false, false, true) ==> FlagPosition(flags) == "center"
  {
  }

  // ---------------------------------------------------------------- output path

  /** All of `name[..i]` is dots. */
  predicate LeadingDots(name: string, i: int)
    requires 0 <= i <= |name|
  {
    forall j :: 0 <= j < i ==> name[j] == '.'
  }

  /**
   * `os.path.splitext` on a base name: the extension runs from the last dot,
   * unless only dots come before it.
   */
  function SplitExt(name: string): (parts: (string, string))
    ensures parts.0 + parts.1 == name
    ensures parts.1 != [] ==> parts.1[0] == '.' && '.' !in parts.1[1..]
  {
    var i := LastIndexOf(name, '.');
    if i >= 0 && !LeadingDots(name, i) then (name[..i], name[i..]) else (name, "")
  }

  /** The file name the script gives its output: name, marker, `_`, timestamp, extension. */
  function OutputFileName(file: string, timestamp: string): string
  {
    var parts := SplitExt(BaseName(file));
    parts.0 + MediaEngine.Suffix + "_" + timestamp + parts.1
  }

  /** The output path: in the output folder, or in the current directory `.` when none is set. */
  function OutputPath(file: string, outputFolder: string, timestamp: string): string
  {
    MediaEngine.JoinPath(if outputFolder != [] then outputFolder else ".", OutputFileName(file, timestamp))
  }

  /** The output's base name is the script's output file name, and it lies in the folder or in `.`. */
  lemma OutputPathShape(file: string, outputFolder: string, timestamp: string)
    requires '/' !in timestamp
    ensures var out := OutputPath(file, outputFolder, timestamp);
      var dir := if outputFolder != [] then outputFolder else ".";
      && BaseName(out) == OutputFileName(file, timestamp)
      && MediaEngine.DirPart(out) == MediaEngine.JoinPath(dir, "")
      && Contains(BaseName(out), MediaEngine.Suffix)
  {
    var dir := if outputFolder != [] then outputFolder else ".";
    var name := OutputFileName(file, timestamp);
    OutputFileNameParts(file, timestamp);
    MediaEngine.JoinPathSplit(dir, name);
    MediaEngine.SplitPath(MediaEngine.JoinPath(dir, ""), name);
  }

  /** The output file name has no separator and carries the marker. */
  lemma OutputFileNameParts(file: string, timestamp: string)
    requires '/' !in timestamp
    ensures '/' !in OutputFileName(file, timestamp)
    ensures Contains(OutputFileName(file, timestamp), MediaEngine.Suffix)
  {
    var parts := SplitExt(BaseName(file));
    PartsNoSlash(BaseName(file));
    MediaEngine.MarkerNoSlash();
    MediaEngine.Regroup(parts.0, MediaEngine.Suffix, "_", timestamp, parts.1);
    MediaEngine.ContainsMiddle(parts.0, MediaEngine.Suffix, "_" + timestamp + parts.1);
  }

  /** The two parts of a name without a separator have none either. */
  lemma PartsNoSlash(name: string)
    requires '/' !in name
    ensures '/' !in SplitExt(name).0 && '/' !in SplitExt(name).1
  {
    var parts := SplitExt(name);
    assert forall i :: 0 <= i < |parts.0| ==> parts.0[i] == name[i];
    assert forall i :: 0 <= i < |parts.1| ==> parts.1[i] == name[|parts.0| + i];
  }

  /** What the script writes is skipped by a later run of the script. */
  lemma OutputsSkipped(file: string, outputFolder: string, timestamp: string, isFile: bool)
    requires '/' !in timestamp
    ensures !Accepted(OutputPath(file, outputFolder, timestamp), isFile)
  {
    OutputPathShape(file, outputFolder, timestamp);
  }

  /**
   * `splitext` and `pathlib` split alike a name that neither starts nor ends
   * with a dot.
   */
  lemma SplitExtAgrees(name: string)
    requires name != [] && name[0] != '.' && name[|name| - 1] != '.'
    ensures SplitExt(name) == (MediaEngine.PathStem(name), MediaEngine.PathSuffix(name))
  {
    var i := LastIndexOf(name, '.');
    if i >= 0 {
      assert i > 0 && !LeadingDots(name, i);
    }
  }

  /**
   * With an output folder set and a base name that neither starts nor ends
   * with a dot, the script and the engine pick the same output path.
   */
  lemma OutputPathAgrees(file: string, outputFolder: string, timestamp: string)
    requires outputFolder != []
    requires var name := BaseName(file); name != [] && name[0] != '.' && name[|name| - 1] != '.'
    ensures OutputPath(file, outputFolder, timestamp) == MediaEngine.DefaultOutputPath(file, outputFolder, timestamp)
  {
    SplitExtAgrees(BaseName(file));
  }

  // ---------------------------------------------------------------- ffmpeg command

  /**
   * The command `main` runs for one valid file: the filter holds the escaped
   * text, the slashed font path and the placement the flags select; the
   * quality options follow the file's extension; the command overwrites the
   * output path.
   */
  method FileCommand(file: string, text: string, flags: Flags, cfg: MediaEngine.Config, timestamp: string)
    returns (cmd: seq<string>, output: string)
    ensures output == OutputPath(file, cfg.outputFolder, timestamp)
    ensures |cmd| >= 7 && cmd[..5] == ["ffmpeg", "-i", file, "-vf",
      MediaEngine.DrawtextFilter(MediaEngine.FilterFontPath(cfg.fontFile), EscapeText(text),
        MediaEngine.PositionExpr(FlagPosition(flags), cfg.padding), cfg)]
    ensures cmd[|cmd| - 2..] == ["-y", output]
    ensures MediaEngine.IsImage(file) ==> cmd[5..|cmd| - 2] == ["-q:v", Decimal(cfg.imageQuality)]
    ensures !MediaEngine.IsImage(file) ==> cmd[5..|cmd| - 2] == ["-crf", Decimal(cfg.videoQuality), "-c:a", "copy"]
  {
    var baseName := BaseName(file);
    var parts := SplitExt(baseName);
    var outputName := parts.0 + MediaEngine.Suffix + "_" + timestamp + parts.1;
    var outputDir := if cfg.outputFolder != [] then cfg.outputFolder else ".";
    output := MediaEngine.JoinPath(outputDir, outputName);
    var fontPath := MediaEngine.FilterFontPath(cfg.fontFile);
    var x, y := Position(flags, cfg.padding);
    var filter := MediaEngine.DrawtextFilter(fontPath, EscapeText(text), MediaEngine.Placement(x, y), cfg);
    cmd := MediaEngine.BuildCommand(file, filter, cfg, output);
  }
}
