/**
 * The pure helpers of the shared utility module: truncating text, the
 * extension of a file name, the editor language of a file, and the coarse
 * "time ago" label of a date.
 */
module Utils {
  import opened JsStrings

  /**
   * `truncate(text, length)`: text that fits is returned as it is; longer
   * text is cut with `slice(0, length)` and gets an ellipsis. A negative
   * length counts from the end, as `slice` does.
   */
  function Truncate(text: string, length: int): (r: string)
    ensures |text| <= length ==> r == text
    ensures 0 <= length < |text| ==> r == text[..length] + "..." && |r| == length + 3
    ensures length < 0 ==> r == text[..if |text| + length < 0 then 0 else |text| + length] + "..."
    ensures |text| > length ==> |r| >= 3 && r[|r| - 3..] == "..." && r[..|r| - 3] <= text
  {
    if |text| <= length then text else Slice(text, 0, length) + "..."
  }

  /** `getFileExtension(filename)`: slice from `((lastIndexOf('.') - 1) >>> 0) + 2`. */
  function FileExtension(filename: string): string
  {
    SliceFrom(filename, ToUint32(LastIndexOf(filename, '.') - 1) + 2)
  }

  /** The extension contains no dot and is a suffix of the name. */
  lemma ExtensionHasNoDot(filename: string)
    requires |filename| <= 0x1_0000_0000
    ensures '.' !in FileExtension(filename)
    ensures |FileExtension(filename)| <= |filename|
    ensures FileExtension(filename) == filename[|filename| - |FileExtension(filename)|..]
  {
    var i := LastIndexOf(filename, '.');
    var start := ClampIndex(ToUint32(i - 1) + 2, |filename|);
    if i >= 0 {
      assert start > i;
      assert forall j :: start <= j < |filename| ==> filename[j] != '.';
    }
  }

  /**
   * For any name a string can hold, the extension is the text after the last
   * dot, and it is empty when there is no dot or the only dot starts the
   * name (`.gitignore`).
   */
  lemma ExtensionSpec(filename: string)
    requires |filename| <= 0x1_0000_0000
    ensures '.' !in filename ==> FileExtension(filename) == ""
    ensures LastIndexOf(filename, '.') == 0 ==> FileExtension(filename) == ""
    ensures var i := LastIndexOf(filename, '.');
      i >= 1 ==> FileExtension(filename) == filename[i + 1..] && filename == filename[..i] + "." + FileExtension(filename)
  {
    var i := LastIndexOf(filename, '.');
    if i >= 1 {
      DottedExtension(filename, i);
    } else {
      UndottedExtension(filename, i);
    }
  }

  lemma DottedExtension(filename: string, i: int)
    requires |filename| <= 0x1_0000_0000
    requires i == LastIndexOf(filename, '.') && i >= 1
    ensures FileExtension(filename) == filename[i + 1..]
    ensures filename == filename[..i] + "." + filename[i + 1..]
  {
    assert ToUint32(i - 1) == i - 1;
    SplitAtDot(filename, i);
  }

  lemma UndottedExtension(filename: string, i: int)
    requires |filename| <= 0x1_0000_0000
    requires i == LastIndexOf(filename, '.') && i <= 0
    ensures FileExtension(filename) == ""
  {
    assert ToUint32(i - 1) >= 0x1_0000_0000 - 2;
  }

  lemma SplitAtDot(s: string, i: int)
    requires 0 <= i < |s| && s[i] == '.'
    ensures s == s[..i] + "." + s[i + 1..]
  {
    assert s == s[..i] + [s[i]] + s[i + 1..];
  }

  /** The position of an occurrence of `c` with none after it is the last index of `c`. */
  lemma LastIndexIs(s: string, c: char, k: int)
    requires 0 <= k < |s| && s[k] == c
    requires forall j :: k < j < |s| ==> s[j] != c
    ensures LastIndexOf(s, c) == k
  {
    assert s[k] in s;
  }

  lemma AppendIndex(a: string, b: string, j: int)
    requires |a| <= j < |a| + |b|
    ensures (a + b)[j] == b[j - |a|]
  {
  }

  /** The last occurrence of `c` in `base + [c] + rest`, when `rest` has none, is right after `base`. */
  lemma LastIndexAfter(base: string, c: char, rest: string)
    requires c !in rest
    ensures LastIndexOf(base + [c] + rest, c) == |base|
  {
    var head := base + [c];
    var s := head + rest;
    var n := |base|;
    assert s[n] == head[n] == c;
    forall j | n < j < |s|
      ensures s[j] != c
    {
      AppendIndex(head, rest, j);
      assert rest[j - n - 1] in rest;
    }
    LastIndexIs(s, c, n);
  }

  /** The extension of `base.ext`, for a non-empty `base` and a dot-free `ext`, is `ext`. */
  lemma ExtensionOfDotted(base: string, ext: string)
    requires base != "" && '.' !in ext && |base| + 1 + |ext| <= 0x1_0000_0000
    ensures FileExtension(base + "." + ext) == ext
  {
    LastIndexAfter(base, '.', ext);
    ExtensionSpec(base + "." + ext);
    assert (base + "." + ext)[|base| + 1..] == ext;
  }

  /** A dot-free name has no extension, and neither has a name whose only dot starts it. */
  lemma NoExtension(ext: string)
    requires '.' !in ext && 1 + |ext| <= 0x1_0000_0000
    ensures FileExtension(ext) == "" && FileExtension("." + ext) == ""
  {
    LastIndexAfter("", '.', ext);
    assert "" + "." + ext == "." + ext;
    ExtensionSpec(ext);
    ExtensionSpec("." + ext);
  }

  /** The extension table of `getLanguageFromFilename`. */
  const LanguageTable: map<string, string> := map[
    "ts" := "typescript",
    "tsx" := "typescript",
    "js" := "javascript",
    "jsx" := "javascript",
    "py" := "python",
    "css" := "css",
    "scss" := "scss",
    "html" := "html",
    "json" := "json",
    "md" := "markdown",
    "sql" := "sql",
    "sh" := "shell",
    "yml" := "yaml",
    "yaml" := "yaml"]

  /**
   * `getLanguageFromFilename(filename)` as evidently intended: the table's
   * language for a listed extension, `plaintext` for any other.
   */
  function LanguageOf(filename: string): (r: string)
    ensures FileExtension(filename) in LanguageTable ==> r == LanguageTable[FileExtension(filename)]
    ensures FileExtension(filename) !in LanguageTable ==> r == "plaintext"
    ensures r == "plaintext" || r in LanguageTable.Values
  {
    var ext := FileExtension(filename);
    if ext in LanguageTable then LanguageTable[ext] else "plaintext"
  }

  /** Every listed extension is at least two characters long and starts with a lower-case letter. */
  lemma ListedExtensions()
    ensures forall k :: k in LanguageTable ==> 2 <= |k| && 'a' <= k[0] <= 'z'
  {
    assert LanguageTable.Keys == {"ts", "tsx", "js", "jsx", "py", "css", "scss", "html", "json", "md", "sql", "sh", "yml", "yaml"};
  }

  /** `ExtensionOfDotted` for a name given whole. */
  lemma DottedName(name: string, base: string, ext: string)
    requires name == base + "." + ext
    requires base != "" && '.' !in ext && |name| <= 0x1_0000_0000
    ensures FileExtension(name) == ext
  {
    ExtensionOfDotted(base, ext);
  }

  /** Both spellings of the TypeScript extension are listed: `.tsx` ... */
  lemma TsxIsTypeScript()
    ensures LanguageOf("app.tsx") == "typescript"
  {
    DottedName("app.tsx", "app", "tsx");
  }

  /** ... and `.ts`. */
  lemma TsIsTypeScript()
    ensures LanguageOf("lib.ts") == "typescript"
  {
    DottedName("lib.ts", "lib", "ts");
  }

  /** Both spellings of the YAML extension are listed: `.yml` ... */
  lemma YmlIsYaml()
    ensures LanguageOf("ci.yml") == "yaml"
  {
    DottedName("ci.yml", "ci", "yml");
  }

  /** ... and `.yaml`. */
  lemma YamlIsYaml()
    ensures LanguageOf("ci.yaml") == "yaml"
  {
    DottedName("ci.yaml", "ci", "yaml");
  }

  /** The lookup is case-sensitive: an upper-case extension is not listed. */
  lemma LanguageIsCaseSensitive()
    ensures LanguageOf("App.TS") == "plaintext"
  {
    DottedName("App.TS", "App", "TS");
    ListedExtensions();
  }

  /** A name without an extension, or with only a leading dot, is plain text. */
  lemma LanguageWithoutExtension(name: string)
    requires '.' !in name && 1 + |name| <= 0x1_0000_0000
    ensures LanguageOf(name) == "plaintext" && LanguageOf("." + name) == "plaintext"
  {
    NoExtension(name);
    ListedExtensions();
  }

  /**
   * The keys every plain object literal inherits from `Object.prototype`.
   * Reading one of them from the table yields a function (or, for
   * `__proto__`, the prototype object), and either is truthy.
   */
  const InheritedKeys: set<string> := {
    "constructor", "hasOwnProperty", "isPrototypeOf", "propertyIsEnumerable",
    "toLocaleString", "toString", "valueOf", "__proto__",
    "__defineGetter__", "__defineSetter__", "__lookupGetter__", "__lookupSetter__"}

  /** A JavaScript value read from the table: a string, or an inherited member named by its key. */
  datatype JsValue = Str(s: string) | InheritedMember(key: string)

  /** `languageMap[ext] || 'plaintext'` as written: an inherited member is truthy and is returned. */
  function LanguageOfAsWritten(filename: string): (r: JsValue)
    ensures var ext := FileExtension(filename);
      r == if ext in LanguageTable then Str(LanguageTable[ext])
           else if ext in InheritedKeys then InheritedMember(ext)
           else Str("plaintext")
  {
    var ext := FileExtension(filename);
    if ext in LanguageTable then Str(LanguageTable[ext])
    else if ext in InheritedKeys then InheritedMember(ext)
    else Str("plaintext")
  }

  lemma ConstructorIsInherited()
    ensures "constructor" !in LanguageTable && "constructor" in InheritedKeys
  {
  }

  /** A file named `notes.constructor` gets a function as its language instead of `plaintext`. */
  lemma InheritedKeyLeaks()
    ensures LanguageOfAsWritten("notes.constructor") == InheritedMember("constructor")
    ensures LanguageOf("notes.constructor") == "plaintext"
  {
    DottedName("notes.constructor", "notes", "constructor");
    ConstructorIsInherited();
  }

  /** Apart from the inherited keys, the code as written and the intended lookup agree. */
  lemma AsWrittenAgrees(filename: string)
    requires FileExtension(filename) !in InheritedKeys
    ensures LanguageOfAsWritten(filename) == Str(LanguageOf(filename))
  {
  }

  /** The label `formatRelativeTime` picks; `AsDate` is the locale date string of the past date. */
  datatype RelativeTime = JustNow | MinutesAgo(minutes: nat) | HoursAgo(hours: nat) | DaysAgo(days: nat) | AsDate

  /** Whole seconds elapsed: `Math.floor((now - past) / 1000)` on millisecond times. */
  function ElapsedSeconds(nowMs: int, pastMs: int): (r: int)
    ensures 1000 * r <= nowMs - pastMs < 1000 * (r + 1)
  {
    (nowMs - pastMs) / 1000
  }

  /** The branches of `formatRelativeTime` for an elapsed time of `d` seconds. */
  function Classify(d: int): (r: RelativeTime)
    ensures r == JustNow <==> d < 60
    ensures r.MinutesAgo? <==> 60 <= d < 3600
    ensures r.HoursAgo? <==> 3600 <= d < 86400
    ensures r.DaysAgo? <==> 86400 <= d < 604800
    ensures r == AsDate <==> d >= 604800
    ensures r.MinutesAgo? ==> 1 <= r.minutes <= 59 && 60 * r.minutes <= d < 60 * (r.minutes + 1)
    ensures r.HoursAgo? ==> 1 <= r.hours <= 23 && 3600 * r.hours <= d < 3600 * (r.hours + 1)
    ensures r.DaysAgo? ==> 1 <= r.days <= 6 && 86400 * r.days <= d < 86400 * (r.days + 1)
  {
    if d < 60 then JustNow
    else if d < 3600 then MinutesAgo(d / 60)
    else if d < 86400 then HoursAgo(d / 3600)
    else if d < 604800 then DaysAgo(d / 86400)
    else AsDate
  }

  /** `formatRelativeTime(past)` with the current time passed in. */
  function FormatRelativeTime(nowMs: int, pastMs: int): RelativeTime
  {
    Classify(ElapsedSeconds(nowMs, pastMs))
  }

  /** The text of a label other than the locale date, whose format is left out. */
  function LabelText(t: RelativeTime): string
    requires t != AsDate
  {
    match t
    case JustNow => "just now"
    case MinutesAgo(n) => NatToString(n) + "m ago"
    case HoursAgo(n) => NatToString(n) + "h ago"
    case DaysAgo(n) => NatToString(n) + "d ago"
  }

  /** The seconds a label stands for at least. */
  function LowerBound(t: RelativeTime): int
  {
    match t
    case JustNow => 0
    case MinutesAgo(n) => 60 * n
    case HoursAgo(n) => 3600 * n
    case DaysAgo(n) => 86400 * n
    case AsDate => 604800
  }

  /** An older date never gets a label that stands for less time. */
  lemma ClassifyMonotone(d1: int, d2: int)
    requires d1 <= d2
    ensures LowerBound(Classify(d1)) <= LowerBound(Classify(d2))
  {
    var a, b := Classify(d1), Classify(d2);
    if a.MinutesAgo? && b.MinutesAgo? {
      assert 60 * a.minutes <= d2 < 60 * (b.minutes + 1);
    } else if a.HoursAgo? && b.HoursAgo? {
      assert 3600 * a.hours <= d2 < 3600 * (b.hours + 1);
    } else if a.DaysAgo? && b.DaysAgo? {
      assert 86400 * a.days <= d2 < 86400 * (b.days + 1);
    }
  }

  /** The number in a label reads back as the count it was made from, so distinct counts give distinct texts. */
  lemma LabelNumber(t: RelativeTime)
    requires t.MinutesAgo? || t.HoursAgo? || t.DaysAgo?
    ensures var n := if t.MinutesAgo? then t.minutes else if t.HoursAgo? then t.hours else t.days;
      var text := LabelText(t);
      |text| == |NatToString(n)| + 5 && text[..|text| - 5] == NatToString(n) && ParseDecimal(text[..|text| - 5]) == n
  {
    var n := if t.MinutesAgo? then t.minutes else if t.HoursAgo? then t.hours else t.days;
    ParseNatToString(n);
    var text := LabelText(t);
    assert text[..|text| - 5] == NatToString(n);
  }
}
