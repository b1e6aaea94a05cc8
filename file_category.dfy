/** The path and file classification of the renderer (`app/src/utils.js`):
    the cleaning advice for a path (`analyzeFileCategory` and
    `CLEANING_LEVELS`), the file type of a name (`getFileType` and
    `FILE_TYPES`), the label and colour of a type, and the unit
    `formatBytes` picks. */
module FileCategory {
  import opened Strings
  import opened Paths

  /** An entry of `CLEANING_LEVELS`. */
  datatype CleaningLevel = CleaningLevel(id: string, caption: string, color: string, priority: nat)

  const SAFE: CleaningLevel := CleaningLevel("safe", "建议清理", "#10b981", 1)
  const CAUTION: CleaningLevel := CleaningLevel("caution", "谨慎清理", "#f59e0b", 2)
  const DANGER: CleaningLevel := CleaningLevel("danger", "系统文件", "#ef4444", 3)
  const UNKNOWN: CleaningLevel := CleaningLevel("unknown", "其他文件", "#94a3b8", 4)

  /** The four levels, from the safest to the least known. */
  const Levels: seq<CleaningLevel> := [SAFE, CAUTION, DANGER, UNKNOWN]

  /** The levels are told apart by their priority, which grows along `Levels`. */
  lemma LevelPriorities()
    ensures forall i, j :: 0 <= i < j < |Levels| ==> Levels[i].priority < Levels[j].priority
    ensures forall i :: 0 <= i < |Levels| ==> Levels[i].priority == i + 1
  {
  }

  const SystemRoots: seq<string> := ["/system", "/bin", "/sbin", "/usr", "/var", "/private"]
  const DeveloperJunk: seq<string> := ["/node_modules/", "/target/debug/", "/build/outputs/", "/deriveddata/"]
  const UserCaches: seq<string> := ["/library/caches/", "/library/logs/", "/library/saved application state/"]
  const Installers: seq<string> := [".dmg", ".pkg", ".iso", ".zip", ".rar", ".7z"]
  const UserFolders: seq<string> := ["/documents/", "/desktop/", "/pictures/", "/music/", "/movies/"]

  predicate StartsWithAny(p: string, prefixes: seq<string>) {
    exists k :: 0 <= k < |prefixes| && StartsWith(p, prefixes[k])
  }

  predicate ContainsAny(p: string, parts: seq<string>) {
    exists k :: 0 <= k < |parts| && Contains(p, parts[k])
  }

  predicate EndsWithAny(p: string, suffixes: seq<string>) {
    exists k :: 0 <= k < |suffixes| && EndsWith(p, suffixes[k])
  }

  /** `/library` itself or anything under it. */
  predicate InSystemLibrary(p: string) {
    p == "/library" || StartsWith(p, "/library/")
  }

  /** `analyzeFileCategory(filePath)`: the empty path is of unknown level;
      otherwise the lower-cased path goes through the rules in order and
      the first that applies decides. */
  function AnalyzeFileCategory(filePath: string): (r: CleaningLevel)
    ensures r in Levels
  {
    if filePath == [] then UNKNOWN
    else
      var p := Lower(filePath);
      if StartsWithAny(p, SystemRoots) then DANGER
      else if InSystemLibrary(p) then
        if Contains(p, "/caches/") || Contains(p, "/logs/") then CAUTION else DANGER
      else if ContainsAny(p, DeveloperJunk) then SAFE
      else if ContainsAny(p, UserCaches) then SAFE
      else if Contains(p, "/.trash/") then SAFE
      else if Contains(p, "/downloads/") then
        if EndsWithAny(p, Installers) then SAFE else CAUTION
      else if StartsWith(p, "/applications") || Contains(p, "/applications/") then CAUTION
      else if ContainsAny(p, UserFolders) then CAUTION
      else if Contains(p, "/library/application support/") then CAUTION
      else UNKNOWN
  }

  /** A test a rule makes on the lower-cased path. */
  datatype Test = StartsWithOneOf(ss: seq<string>) | ContainsOneOf(ss: seq<string>)
                | EndsWithOneOf(ss: seq<string>) | Is(s: string)

  predicate Holds(t: Test, p: string) {
    match t
    case StartsWithOneOf(ss) => StartsWithAny(p, ss)
    case ContainsOneOf(ss) => ContainsAny(p, ss)
    case EndsWithOneOf(ss) => EndsWithAny(p, ss)
    case Is(s) => p == s
  }

  /** Some test of the group holds. */
  predicate AnyHolds(group: seq<Test>, p: string) {
    group != [] && (Holds(group[0], p) || AnyHolds(group[1..], p))
  }

  /** A rule applies when every one of its groups has a test that holds. */
  datatype Rule = Rule(groups: seq<seq<Test>>, level: CleaningLevel)

  predicate Applies(groups: seq<seq<Test>>, p: string) {
    groups == [] || (AnyHolds(groups[0], p) && Applies(groups[1..], p))
  }

  const LibraryTest: seq<Test> := [Is("/library"), StartsWithOneOf(["/library/"])]

  /** The advice rules, one per branch of the cascade. */
  const SystemRule := Rule([[StartsWithOneOf(SystemRoots)]], DANGER)
  const LibraryCacheRule := Rule([LibraryTest, [ContainsOneOf(["/caches/", "/logs/"])]], CAUTION)
  const LibraryRule := Rule([LibraryTest], DANGER)
  const DeveloperRule := Rule([[ContainsOneOf(DeveloperJunk)]], SAFE)
  const UserCacheRule := Rule([[ContainsOneOf(UserCaches)]], SAFE)
  const TrashRule := Rule([[ContainsOneOf(["/.trash/"])]], SAFE)
  const InstallerRule := Rule([[ContainsOneOf(["/downloads/"])], [EndsWithOneOf(Installers)]], SAFE)
  const DownloadsRule := Rule([[ContainsOneOf(["/downloads/"])]], CAUTION)
  const ApplicationsRule := Rule([[StartsWithOneOf(["/applications"]), ContainsOneOf(["/applications/"])]], CAUTION)
  const UserDataRule := Rule([[ContainsOneOf(UserFolders)]], CAUTION)
  const AppSupportRule := Rule([[ContainsOneOf(["/library/application support/"])]], CAUTION)

  /** The rule table, in the order the rules are tried. */
  const Rules: seq<Rule> := [
    SystemRule, LibraryCacheRule, LibraryRule, DeveloperRule, UserCacheRule, TrashRule,
    InstallerRule, DownloadsRule, ApplicationsRule, UserDataRule, AppSupportRule
  ]

  /** The level of the first rule from `i` on that applies, `UNKNOWN` when
      none does. */
  function FirstMatch(i: nat, p: string): CleaningLevel
    requires i <= |Rules|
    decreases |Rules| - i
  {
    if i == |Rules| then UNKNOWN
    else if Applies(Rules[i].groups, p) then Rules[i].level
    else FirstMatch(i + 1, p)
  }

  /** One-element lists of strings. */
  lemma OneOf(p: string, w: string)
    ensures StartsWithAny(p, [w]) <==> StartsWith(p, w)
    ensures ContainsAny(p, [w]) <==> Contains(p, w)
  {
    assert [w][0] == w;
  }

  lemma TwoOf(p: string, v: string, w: string)
    ensures ContainsAny(p, [v, w]) <==> Contains(p, v) || Contains(p, w)
  {
    assert [v, w][0] == v && [v, w][1] == w;
  }

  lemma OneGroup(g: seq<Test>, p: string)
    ensures Applies([g], p) <==> AnyHolds(g, p)
  {
    assert [g][1..] == [];
  }

  lemma TwoGroups(g: seq<Test>, h: seq<Test>, p: string)
    ensures Applies([g, h], p) <==> AnyHolds(g, p) && AnyHolds(h, p)
  {
    assert [g, h][1..] == [h];
    OneGroup(h, p);
  }

  lemma SingleTest(a: Test, p: string)
    ensures AnyHolds([a], p) <==> Holds(a, p)
  {
    assert [a][1..] == [];
  }

  lemma PairTest(a: Test, b: Test, p: string)
    ensures AnyHolds([a, b], p) <==> Holds(a, p) || Holds(b, p)
  {
    assert [a, b][1..] == [b];
    SingleTest(b, p);
  }

  /** A rule of one group holding one test. */
  lemma SimpleRule(a: Test, p: string)
    ensures Applies([[a]], p) <==> Holds(a, p)
  {
    OneGroup([a], p);
    SingleTest(a, p);
  }

  /** What each rule of the table tests, in the terms of the cascade. */
  lemma SystemRules(p: string)
    ensures Applies(SystemRule.groups, p) <==> StartsWithAny(p, SystemRoots)
    ensures Applies(LibraryCacheRule.groups, p) <==> InSystemLibrary(p) && (Contains(p, "/caches/") || Contains(p, "/logs/"))
    ensures Applies(LibraryRule.groups, p) <==> InSystemLibrary(p)
  {
    SimpleRule(StartsWithOneOf(SystemRoots), p);
    PairTest(Is("/library"), StartsWithOneOf(["/library/"]), p);
    OneOf(p, "/library/");
    TwoGroups(LibraryTest, [ContainsOneOf(["/caches/", "/logs/"])], p);
    SingleTest(ContainsOneOf(["/caches/", "/logs/"]), p);
    TwoOf(p, "/caches/", "/logs/");
    OneGroup(LibraryTest, p);
  }

  lemma JunkRules(p: string)
    ensures Applies(DeveloperRule.groups, p) <==> ContainsAny(p, DeveloperJunk)
    ensures Applies(UserCacheRule.groups, p) <==> ContainsAny(p, UserCaches)
    ensures Applies(TrashRule.groups, p) <==> Contains(p, "/.trash/")
  {
    SimpleRule(ContainsOneOf(DeveloperJunk), p);
    SimpleRule(ContainsOneOf(UserCaches), p);
    SimpleRule(ContainsOneOf(["/.trash/"]), p);
    OneOf(p, "/.trash/");
  }

  lemma DownloadsRules(p: string)
    ensures Applies(InstallerRule.groups, p) <==> Contains(p, "/downloads/") && EndsWithAny(p, Installers)
    ensures Applies(DownloadsRule.groups, p) <==> Contains(p, "/downloads/")
  {
    TwoGroups([ContainsOneOf(["/downloads/"])], [EndsWithOneOf(Installers)], p);
    SingleTest(ContainsOneOf(["/downloads/"]), p);
    SingleTest(EndsWithOneOf(Installers), p);
    SimpleRule(ContainsOneOf(["/downloads/"]), p);
    OneOf(p, "/downloads/");
  }

  lemma UserRules(p: string)
    ensures Applies(ApplicationsRule.groups, p) <==> StartsWith(p, "/applications") || Contains(p, "/applications/")
    ensures Applies(UserDataRule.groups, p) <==> ContainsAny(p, UserFolders)
    ensures Applies(AppSupportRule.groups, p) <==> Contains(p, "/library/application support/")
  {
    OneGroup([StartsWithOneOf(["/applications"]), ContainsOneOf(["/applications/"])], p);
    PairTest(StartsWithOneOf(["/applications"]), ContainsOneOf(["/applications/"]), p);
    OneOf(p, "/applications");
    OneOf(p, "/applications/");
    SimpleRule(ContainsOneOf(UserFolders), p);
    SimpleRule(ContainsOneOf(["/library/application support/"]), p);
    OneOf(p, "/library/application support/");
  }

  /** The last three rules, tried in order. */
  lemma UserDataRules(p: string)
    ensures FirstMatch(8, p) ==
      if StartsWith(p, "/applications") || Contains(p, "/applications/") then CAUTION
      else if ContainsAny(p, UserFolders) then CAUTION
      else if Contains(p, "/library/application support/") then CAUTION
      else UNKNOWN
  {
    assert Rules[8] == ApplicationsRule && Rules[9] == UserDataRule && Rules[10] == AppSupportRule;
    UserRules(p);
  }

  /** The last five rules, tried in order. */
  lemma LaterRules(p: string)
    ensures FirstMatch(6, p) ==
      if Contains(p, "/downloads/") then (if EndsWithAny(p, Installers) then SAFE else CAUTION)
      else FirstMatch(8, p)
  {
    assert Rules[6] == InstallerRule && Rules[7] == DownloadsRule;
    DownloadsRules(p);
  }

  /** The three junk rules, tried in order. */
  lemma JunkRulesInOrder(p: string)
    ensures FirstMatch(3, p) ==
      if ContainsAny(p, DeveloperJunk) then SAFE
      else if ContainsAny(p, UserCaches) then SAFE
      else if Contains(p, "/.trash/") then SAFE
      else FirstMatch(6, p)
  {
    assert Rules[3] == DeveloperRule && Rules[4] == UserCacheRule && Rules[5] == TrashRule;
    JunkRules(p);
  }

  /** The first six rules, tried in order. */
  lemma EarlierRules(p: string)
    ensures FirstMatch(0, p) ==
      if StartsWithAny(p, SystemRoots) then DANGER
      else if InSystemLibrary(p) then
        (if Contains(p, "/caches/") || Contains(p, "/logs/") then CAUTION else DANGER)
      else FirstMatch(3, p)
  {
    assert Rules[0] == SystemRule && Rules[1] == LibraryCacheRule && Rules[2] == LibraryRule;
    SystemRules(p);
  }

  /** The cascade is the rule table read top-down: the level of a non-empty
      path is that of the first rule its lower-cased form satisfies. */
  lemma AnalyzeIsFirstMatch(filePath: string)
    requires filePath != []
    ensures AnalyzeFileCategory(filePath) == FirstMatch(0, Lower(filePath))
  {
    EarlierRules(Lower(filePath));
    JunkRulesInOrder(Lower(filePath));
    LaterRules(Lower(filePath));
    UserDataRules(Lower(filePath));
  }

  /** A rule table's levels never include `UNKNOWN`, so the cascade gives
      `UNKNOWN` exactly when no rule from `i` on applies. */
  lemma {:induction false} FirstMatchUnknownIff(i: nat, p: string)
    requires i <= |Rules|
    ensures FirstMatch(i, p) == UNKNOWN <==> forall j :: i <= j < |Rules| ==> !Applies(Rules[j].groups, p)
    decreases |Rules| - i
  {
    if i < |Rules| {
      FirstMatchUnknownIff(i + 1, p);
      assert Rules[i].level != UNKNOWN;
    }
  }

  /** Only the lower-cased path matters. */
  lemma AnalyzeIgnoresCase(filePath: string)
    ensures AnalyzeFileCategory(Lower(filePath)) == AnalyzeFileCategory(filePath)
  {
    LowerIsLower(filePath);
  }

  /** A system path is dangerous whatever the later rules say, and the
      only other dangerous paths are those of the system library that are
      not caches or logs. */
  lemma DangerIff(filePath: string)
    requires filePath != []
    ensures var p := Lower(filePath);
      AnalyzeFileCategory(filePath) == DANGER <==>
        StartsWithAny(p, SystemRoots)
        || (InSystemLibrary(p) && !Contains(p, "/caches/") && !Contains(p, "/logs/"))
  {
  }

  /** The safe paths: developer output, user caches and logs, the trash,
      and installers or archives in the downloads folder, provided no
      system rule fired first. */
  lemma SafeIff(filePath: string)
    requires filePath != []
    ensures var p := Lower(filePath);
      AnalyzeFileCategory(filePath) == SAFE <==>
        !StartsWithAny(p, SystemRoots) && !InSystemLibrary(p)
        && (ContainsAny(p, DeveloperJunk) || ContainsAny(p, UserCaches) || Contains(p, "/.trash/")
            || (Contains(p, "/downloads/") && EndsWithAny(p, Installers)))
  {
  }

  /** The file types of `FILE_TYPES`, and `other`. */
  datatype FileType = Video | Audio | Image | Document | Archive | Executable | Other

  /** The key of a type in `FILE_TYPES`, and what `getFileType` returns. */
  function TypeName(t: FileType): string {
    match t
    case Video => "video"
    case Audio => "audio"
    case Image => "image"
    case Document => "document"
    case Archive => "archive"
    case Executable => "executable"
    case Other => "other"
  }

  /** `FILE_TYPES`: the extensions listed under each type. */
  const VideoExts: seq<string> := ["mp4", "mkv", "avi", "mov", "wmv", "flv", "webm", "m4v", "mpg", "mpeg"]
  const AudioExts: seq<string> := ["mp3", "wav", "flac", "m4a", "aac", "ogg", "wma"]
  const ImageExts: seq<string> := ["jpg", "jpeg", "png", "gif", "bmp", "webp", "svg", "tiff", "heic"]
  const DocumentExts: seq<string> :=
    ["pdf", "doc", "docx", "xls", "xlsx", "ppt", "pptx", "txt", "md", "rtf", "csv", "pages", "numbers", "key"]
  const ArchiveExts: seq<string> := ["zip", "rar", "7z", "tar", "gz", "bz2", "iso", "dmg", "pkg"]
  const ExecutableExts: seq<string> := ["exe", "app", "msi", "bat", "sh", "apk"]

  /** The extensions listed for a type; none for `Other`. */
  function ExtensionsOf(t: FileType): seq<string> {
    match t
    case Video => VideoExts
    case Audio => AudioExts
    case Image => ImageExts
    case Document => DocumentExts
    case Archive => ArchiveExts
    case Executable => ExecutableExts
    case Other => []
  }

  /** The order in which `getFileType` tries the types. */
  const TypeOrder: seq<FileType> := [Video, Audio, Image, Document, Archive, Executable]

  /** `filename.split('.').pop().toLowerCase()` */
  function Extension(filename: string): (ext: string) {
    var parts := Split(filename, '.');
    Lower(parts[|parts| - 1])
  }

  /** The first type from position `i` of `TypeOrder` on whose list has
      `ext`, `Other` if none. */
  function FindType(i: nat, ext: string): FileType
    requires i <= |TypeOrder|
    decreases |TypeOrder| - i
  {
    if i == |TypeOrder| then Other
    else if ext in ExtensionsOf(TypeOrder[i]) then TypeOrder[i]
    else FindType(i + 1, ext)
  }

  /** `getFileType(filename)` */
  function GetFileType(filename: string): string {
    TypeName(FindType(0, Extension(filename)))
  }

  /** The extension is the lower-cased text after the last dot, the whole
      lower-cased name when there is none. */
  lemma ExtensionIsLastPart(filename: string)
    ensures Extension(filename) == Lower(Basename(filename, '.'))
  {
    SplitLast(filename, '.');
  }

  lemma {:induction false} SplitLast(s: string, c: char)
    ensures var parts := Split(s, c); parts[|parts| - 1] == Basename(s, c)
    decreases |s|
  {
    if c in s {
      var i := IndexOf(s, c);
      var rest := s[i + 1..];
      SplitLast(rest, c);
      if c in rest {
        var k := LastIndexOf(rest, c);
        assert s[i + 1 + k] == c;
        BasenameAfter(s, c, i, k);
      } else {
        LastIsFirst(s, c, i);
      }
    }
  }

  /** When the first `c` is the last, the basename is the text after it. */
  lemma LastIsFirst(s: string, c: char, i: nat)
    requires c in s && i == IndexOf(s, c) && c !in s[i + 1..]
    ensures Basename(s, c) == s[i + 1..]
  {
    var k := LastIndexOf(s, c);
    forall j | i < j < |s| ensures s[j] != c {
      assert s[i + 1..][j - i - 1] == s[j];
    }
    forall j | 0 <= j < i ensures s[j] != c {
      assert s[..i][j] == s[j];
    }
    assert k == i;
  }

  /** Past the first `c`, the last `c` of the rest is the last of `s`. */
  lemma BasenameAfter(s: string, c: char, i: nat, k: nat)
    requires c in s && i == IndexOf(s, c)
    requires c in s[i + 1..] && k == LastIndexOf(s[i + 1..], c)
    ensures Basename(s, c) == Basename(s[i + 1..], c)
  {
    var rest := s[i + 1..];
    var m := LastIndexOf(s, c);
    assert s[i + 1 + k] == rest[k];
    forall j | i + 1 + k < j < |s| ensures s[j] != c {
      assert rest[k + 1..][j - i - 1 - k - 1] == s[j];
    }
    forall j | m < j < |s| ensures s[j] != c {
      assert s[m + 1..][j - m - 1] == s[j];
    }
    assert m == i + 1 + k;
    assert s[m + 1..] == rest[k + 1..];
  }

  /** No extension is listed under two types: one listed under a type
      is under none of the types tried before it. */
  lemma ListedOnce(ext: string)
    ensures ext in AudioExts ==> ext !in VideoExts
    ensures ext in ImageExts ==> ext !in VideoExts && ext !in AudioExts
    ensures ext in DocumentExts ==> ext !in VideoExts && ext !in AudioExts && ext !in ImageExts
  {
  }

  lemma ListedOnceLate(ext: string)
    ensures ext in ArchiveExts ==> ext !in VideoExts && ext !in AudioExts && ext !in ImageExts && ext !in DocumentExts
    ensures ext in ExecutableExts ==>
      ext !in VideoExts && ext !in AudioExts && ext !in ImageExts && ext !in DocumentExts && ext !in ArchiveExts
  {
  }

  /** What `FindType` answers is a type whose list has `ext`; `Other`
      means no type from `i` on lists it. */
  lemma {:induction false} FindTypeSound(i: nat, ext: string)
    requires i <= |TypeOrder|
    ensures var t := FindType(i, ext);
      if t == Other then forall j :: i <= j < |TypeOrder| ==> ext !in ExtensionsOf(TypeOrder[j])
      else ext in ExtensionsOf(t)
    decreases |TypeOrder| - i
  {
    if i < |TypeOrder| {
      FindTypeSound(i + 1, ext);
    }
  }

  /** An extension listed under `t` is found as `t`. */
  lemma FindTypeOf(ext: string, t: FileType)
    requires t != Other && ext in ExtensionsOf(t)
    ensures FindType(0, ext) == t
  {
    ListedOnce(ext);
    ListedOnceLate(ext);
    assert FindType(5, ext) == (if ext in ExecutableExts then Executable else Other);
    assert FindType(3, ext) == (if ext in DocumentExts then Document else FindType(4, ext));
    assert FindType(1, ext) == (if ext in AudioExts then Audio else FindType(2, ext));
  }

  /** `getFileType` answers the type whose list holds the extension, and
      `other` exactly when no list holds it. */
  lemma FileTypeIff(filename: string, t: FileType)
    ensures GetFileType(filename) == TypeName(t) <==>
      if t == Other then forall u :: Extension(filename) !in ExtensionsOf(u)
      else Extension(filename) in ExtensionsOf(t)
  {
    var ext := Extension(filename);
    TypeNamesDistinct(FindType(0, ext), t);
    FindTypeSound(0, ext);
    if t != Other && ext in ExtensionsOf(t) {
      FindTypeOf(ext, t);
    }
    forall u | ext in ExtensionsOf(u) ensures FindType(0, ext) == u {
      FindTypeOf(ext, u);
    }
  }

  /** Each type has its own name, so the string `getFileType` returns names
      the type found. */
  lemma TypeNamesDistinct(t: FileType, u: FileType)
    ensures TypeName(t) == TypeName(u) ==> t == u
  {
  }

  /** `getFileTypeLabel`: the keys of its table. */
  const TypeLabels: map<string, string> := map[
    "video" := "视频", "audio" := "音频", "image" := "图片", "document" := "文档",
    "archive" := "压缩包/镜像", "executable" := "可执行文件", "other" := "其他"]

  /** `getFileTypeColor`: the keys of its table and its fallback. */
  const TypeColors: map<string, string> := map[
    "video" := "#3b82f6", "audio" := "#8b5cf6", "image" := "#ec4899", "document" := "#10b981",
    "archive" := "#f59e0b", "executable" := "#ef4444", "other" := "#64748b"]
  const FallbackColor: string := "#64748b"

  /** `getFileTypeLabel(type)`: the table's label, or the type itself. */
  function GetFileTypeLabel(typeName: string): string {
    if typeName in TypeLabels then TypeLabels[typeName] else typeName
  }

  /** `getFileTypeColor(type)`: the table's colour, or slate. */
  function GetFileTypeColor(typeName: string): string {
    if typeName in TypeColors then TypeColors[typeName] else FallbackColor
  }

  /** Every type `getFileType` can answer has an entry in both tables, so
      neither lookup falls back for it; the labels of different types
      differ; an unknown type string is its own label and gets the colour
      of `other`. */
  lemma LabelsAndColors(t: FileType, u: FileType, typeName: string)
    ensures TypeName(t) in TypeLabels && TypeName(t) in TypeColors
    ensures GetFileTypeLabel(TypeName(t)) != TypeName(t)
    ensures t != u ==> GetFileTypeLabel(TypeName(t)) != GetFileTypeLabel(TypeName(u))
    ensures typeName !in TypeLabels ==> GetFileTypeLabel(typeName) == typeName
    ensures typeName !in TypeColors ==> GetFileTypeColor(typeName) == GetFileTypeColor(TypeName(Other))
  {
  }

  /** The units `formatBytes` chooses from. */
  const Units: seq<string> := ["B", "KB", "MB", "GB", "TB"]

  /** 1024 to the `n`. */
  function Power(n: nat): (r: real)
    ensures r >= 1.0
  {
    if n == 0 then 1.0 else 1024.0 * Power(n - 1)
  }

  /** What `formatBytes` shows: a value, the number of decimals
      `toFixed` is given, and the index of the unit in `Units`. */
  datatype Shown = Shown(value: real, decimals: nat, unit: nat)

  /** `formatBytes(bytes)`: divides by 1024 while the value is at least
      1024 and a larger unit is left. The unit is the largest whose size
      does not exceed `bytes`, capped at terabytes, and bytes are shown
      without decimals. */
  method FormatBytes(bytes: real) returns (s: Shown)
    ensures s.unit < |Units|
    ensures s.value * Power(s.unit) == bytes
    ensures s.unit > 0 ==> Power(s.unit) <= bytes
    ensures s.unit < |Units| - 1 ==> bytes < Power(s.unit + 1)
    ensures s.decimals == if s.unit == 0 then 0 else 2
    ensures bytes < 1024.0 ==> s == Shown(bytes, 0, 0)
  {
    var i := 0;
    var v := bytes;
    Unscaled(v);
    while v >= 1024.0 && i < |Units| - 1
      invariant 0 <= i < |Units|
      invariant v * Power(i) == bytes
      invariant i > 0 ==> v >= 1.0 && bytes >= 1024.0
    {
      ScaleDown(v, i);
      v := v / 1024.0;
      i := i + 1;
    }
    UnitFits(v, i, bytes);
    s := Shown(v, if i == 0 then 0 else 2, i);
  }

  lemma Unscaled(v: real)
    ensures v * Power(0) == v
  {
  }

  /** The value found lies in the unit found. */
  lemma UnitFits(v: real, i: nat, bytes: real)
    requires v * Power(i) == bytes
    ensures i > 0 && v >= 1.0 ==> Power(i) <= bytes
    ensures v < 1024.0 ==> bytes < Power(i + 1)
  {
    Bounds(v, i);
  }

  /** Dividing the value by 1024 and moving to the next unit keeps the
      amount shown. */
  lemma ScaleDown(v: real, i: nat)
    requires v >= 1024.0
    ensures (v / 1024.0) * Power(i + 1) == v * Power(i)
    ensures v / 1024.0 >= 1.0
  {
    var p := Power(i);
    assert Power(i + 1) == 1024.0 * p;
    calc {
      (v / 1024.0) * (1024.0 * p);
      ((v / 1024.0) * 1024.0) * p;
      v * p;
    }
  }

  /** A value of at least one in unit `i` is at least the unit's size; one
      below 1024 is below the next unit's size. */
  lemma Bounds(v: real, i: nat)
    ensures v >= 1.0 ==> v * Power(i) >= Power(i)
    ensures v < 1024.0 ==> v * Power(i) < Power(i + 1)
  {
    var p := Power(i);
    assert Power(i + 1) == 1024.0 * p;
    if v >= 1.0 {
      assert v * p - p == (v - 1.0) * p;
    }
    if v < 1024.0 {
      assert 1024.0 * p - v * p == (1024.0 - v) * p;
    }
  }
}
