/** The per-process classification of `get_all_processes` (app.py:1203-1349): a relevance
    test over seven flags, then an ordered if/elif chain that puts a relevant process into
    exactly one of six buckets and gives it a display name and a heap annotation. */
module Classifier {
  import opened Text
  import opened Wrappers
  import opened Patterns

  /** The six keys of the `processes` dictionary (app.py:1189-1196). */
  datatype Category = Gradle | Kotlin | Studio | Emulator | Ide | Java

  datatype Classification = Classification(category: Category, name: string, heap: string)

  /** Longest display name kept for a process no rule names (app.py:1268). */
  const NameLimit := 100

  // ---- The relevance flags (app.py:1209-1243) ----

  predicate IsJava(cmd: string) { Contains(Lower(cmd), "java") }

  predicate IsKotlin(cmd: string) { Contains(Lower(cmd), "kotlin") }

  predicate IsGradle(cmd: string) { Contains(Lower(cmd), "gradle") }

  predicate IsStudio(cmd: string) {
    || Contains(Lower(cmd), "android studio")
    || Contains(cmd, "Android Studio.app")
    || Contains(Lower(cmd), "com.google.android.studio")
    || Contains(cmd, "-Didea.platform.prefix=AndroidStudio")
  }

  predicate IsEmulator(procName: string, cmd: string) {
    var n := Lower(procName);
    || Contains(n, "qemu-system")
    || Contains(n, "emulator")
    || Contains(n, "emulator64")
    || Contains(n, "qemu")
    || Contains(cmd, "Android Emulator")
  }

  predicate IsAdb(procName: string, cmd: string) {
    Contains(Lower(procName), "adb") && Contains(Lower(cmd), "server")
  }

  predicate IsIde(procName: string, cmd: string) {
    var n := Lower(procName);
    || Contains(n, "cursor") || Contains(cmd, "Cursor.app")
    || Contains(n, "code") || Contains(cmd, "Code.app") || Contains(cmd, "Visual Studio Code")
    || Contains(n, "windsurf") || Contains(cmd, "Windsurf.app")
    || Contains(n, "trae") || Contains(cmd, "Trae.app")
    || Contains(n, "antigravity")
    || Contains(n, "zed") || Contains(cmd, "Zed.app")
    || Contains(n, "fleet") || Contains(cmd, "Fleet.app")
    || Contains(n, "sublime") || Contains(cmd, "Sublime")
    || Contains(n, "atom")
    || Contains(n, "notepad++")
    || Contains(n, "neovim")
    || Contains(n, "nvim")
  }

  /** A process is tracked when any of the seven flags is set (app.py:1245). */
  predicate IsRelevant(procName: string, cmd: string) {
    || IsJava(cmd) || IsKotlin(cmd) || IsGradle(cmd) || IsStudio(cmd)
    || IsEmulator(procName, cmd) || IsAdb(procName, cmd) || IsIde(procName, cmd)
  }

  // ---- Extractors (app.py:1268-1349) ----

  /** The upper-cased capture of `-Xmx(\d+[mgMG])`, or "" (app.py:1269-1275). */
  function HeapSize(cmd: string): string {
    match Search(MaxHeap, cmd)
    case Some(v) => Upper(v)
    case None => ""
  }

  function GradleDaemonName(cmd: string): string {
    match Search(GradleVersion, cmd)
    case Some(v) => "GradleDaemon " + v
    case None => "GradleDaemon"
  }

  function EmulatorName(procName: string, cmd: string): string {
    match Search(AvdName, cmd)
    case Some(avd) => "Emulator: " + avd
    case None => if Contains(Lower(procName), "qemu-system") then "QEMU (Android Emulator)" else "Android Emulator"
  }

  function StudioName(cmd: string): string {
    match Search(StudioVersion, Lower(cmd))
    case Some(v) => "Android Studio " + v
    case None => "Android Studio"
  }

  /** The product lookup of the IDE branch (app.py:1324-1343). */
  function IdeName(procName: string, cmd: string): string {
    var n := Lower(procName);
    if Contains(n, "cursor") || Contains(cmd, "Cursor") then "Cursor"
    else if Contains(n, "windsurf") || Contains(cmd, "Windsurf") then "Windsurf"
    else if Contains(n, "code") || Contains(cmd, "Code.app") || Contains(cmd, "Visual Studio Code") then "VS Code"
    else if Contains(n, "trae") || Contains(cmd, "Trae") then "Trae"
    else if Contains(n, "antigravity") then "Antigravity"
    else if Contains(n, "zed") || Contains(cmd, "Zed") then "Zed"
    else if Contains(n, "fleet") || Contains(cmd, "Fleet") then "Fleet"
    else if Contains(n, "sublime") || Contains(cmd, "Sublime") then "Sublime Text"
    else if Contains(n, "nvim") || Contains(n, "neovim") then "Neovim"
    else "IDE"
  }

  /** The branch of the if/elif chain of app.py:1281-1349 that a process takes: the first
      whose test holds, or none (the process then stays in `java`). The tests are written out
      in the source's order here; `Priority` below lists the same branches as a table. */
  function Branch(procName: string, cmd: string): Option<Rule> {
    var n := Lower(procName);
    var c := Lower(cmd);
    if Contains(cmd, "GradleDaemon") then Some(GradleDaemonRule)
    else if Contains(cmd, "KotlinCompileDaemon") then Some(KotlinCompileDaemonRule)
    else if Contains(c, "kotlin-daemon") || Contains(c, "kotlin.daemon") then Some(KotlinDaemonRule)
    else if IsEmulator(procName, cmd) then Some(EmulatorRule)
    else if IsAdb(procName, cmd) then Some(AdbRule)
    else if Contains(cmd, "-Didea.platform.prefix=AndroidStudio") || Contains(cmd, "Android Studio.app") then
      Some(StudioMainRule)
    else if Contains(n, "fsnotifier") then Some(FileWatcherRule)
    else if Contains(n, "jcef_helper") || Contains(c, "jcef") then Some(BrowserHelperRule)
    else if IsIde(procName, cmd) then Some(IdeRule)
    else if IsGradle(cmd) && !IsKotlin(cmd) then Some(GradleRule)
    else if IsKotlin(cmd) then Some(KotlinRule)
    else None
  }

  /** The display name each branch assigns (app.py:1284-1349). */
  function RuleName(rule: Rule, procName: string, cmd: string): string {
    match rule
    case GradleDaemonRule => GradleDaemonName(cmd)
    case KotlinCompileDaemonRule => "KotlinCompileDaemon"
    case KotlinDaemonRule => "Kotlin Daemon"
    case EmulatorRule => EmulatorName(procName, cmd)
    case AdbRule => "ADB Server"
    case StudioMainRule => StudioName(cmd)
    case FileWatcherRule => "Studio File Watcher"
    case BrowserHelperRule => "Studio Browser Helper"
    case IdeRule => IdeName(procName, cmd)
    case GradleRule => "Gradle Process"
    case KotlinRule => "Kotlin Process"
  }

  /** Bucket and name: those of the branch taken, else `java` under the command line cut to
      100 characters (app.py:1268, 1279). */
  function CategoryAndName(procName: string, cmd: string): (Category, string) {
    match Branch(procName, cmd)
    case Some(rule) => (RuleCategory(rule), RuleName(rule, procName, cmd))
    case None => (Java, Take(cmd, NameLimit))
  }

  /** Classification of one process: nothing for an irrelevant one (it is skipped), else its
      bucket, display name and heap annotation. */
  function Classify(procName: string, cmd: string): (r: Option<Classification>)
    ensures r.None? <==> !IsRelevant(procName, cmd)
  {
    if !IsRelevant(procName, cmd) then None
    else
      var (category, name) := CategoryAndName(procName, cmd);
      Some(Classification(category, name, HeapSize(cmd)))
  }

  // ---- The priority order as a table ----

  /** One branch of the chain, named for its marker. */
  datatype Rule =
    | GradleDaemonRule | KotlinCompileDaemonRule | KotlinDaemonRule | EmulatorRule | AdbRule
    | StudioMainRule | FileWatcherRule | BrowserHelperRule | IdeRule | GradleRule | KotlinRule

  /** The branches in the order the source tries them. */
  const Priority: seq<Rule> := [
    GradleDaemonRule, KotlinCompileDaemonRule, KotlinDaemonRule, EmulatorRule, AdbRule,
    StudioMainRule, FileWatcherRule, BrowserHelperRule, IdeRule, GradleRule, KotlinRule
  ]

  /** The test of a branch, by itself. */
  predicate Fires(rule: Rule, procName: string, cmd: string) {
    match rule
    case GradleDaemonRule => Contains(cmd, "GradleDaemon")
    case KotlinCompileDaemonRule => Contains(cmd, "KotlinCompileDaemon")
    case KotlinDaemonRule => Contains(Lower(cmd), "kotlin-daemon") || Contains(Lower(cmd), "kotlin.daemon")
    case EmulatorRule => IsEmulator(procName, cmd)
    case AdbRule => IsAdb(procName, cmd)
    case StudioMainRule =>
      Contains(cmd, "-Didea.platform.prefix=AndroidStudio") || Contains(cmd, "Android Studio.app")
    case FileWatcherRule => Contains(Lower(procName), "fsnotifier")
    case BrowserHelperRule => Contains(Lower(procName), "jcef_helper") || Contains(Lower(cmd), "jcef")
    case IdeRule => IsIde(procName, cmd)
    case GradleRule => IsGradle(cmd) && !IsKotlin(cmd)
    case KotlinRule => IsKotlin(cmd)
  }

  function RuleCategory(rule: Rule): Category {
    match rule
    case GradleDaemonRule => Gradle
    case KotlinCompileDaemonRule => Kotlin
    case KotlinDaemonRule => Kotlin
    case EmulatorRule => Emulator
    case AdbRule => Studio
    case StudioMainRule => Studio
    case FileWatcherRule => Studio
    case BrowserHelperRule => Studio
    case IdeRule => Ide
    case GradleRule => Gradle
    case KotlinRule => Kotlin
  }

  /** The index of the first rule in `rules` that fires, or `|rules|` when none does. */
  function FirstFiring(rules: seq<Rule>, procName: string, cmd: string): (k: nat)
    ensures k <= |rules|
    ensures forall j :: 0 <= j < k ==> !Fires(rules[j], procName, cmd)
    ensures k < |rules| ==> Fires(rules[k], procName, cmd)
  {
    if rules == [] then 0
    else if Fires(rules[0], procName, cmd) then 0
    else 1 + FirstFiring(rules[1..], procName, cmd)
  }

  /** The chain is first-match over the priority table: a process takes the first rule of
      `Priority` that fires, and stays in `java` when none does. */
  lemma ClassifyFollowsPriority(procName: string, cmd: string)
    requires IsRelevant(procName, cmd)
    ensures var k := FirstFiring(Priority, procName, cmd);
      && Branch(procName, cmd) == (if k < |Priority| then Some(Priority[k]) else None)
      && Classify(procName, cmd).value.category == if k < |Priority| then RuleCategory(Priority[k]) else Java
  {
    ChainFollowsPriority(procName, cmd, FirstFiring(Priority, procName, cmd));
  }

  lemma ChainFollowsPriority(procName: string, cmd: string, k: nat)
    requires k <= |Priority|
    requires forall j :: 0 <= j < k ==> !Fires(Priority[j], procName, cmd)
    requires k < |Priority| ==> Fires(Priority[k], procName, cmd)
    ensures Branch(procName, cmd) == if k < |Priority| then Some(Priority[k]) else None
  {
    assert Priority[0] == GradleDaemonRule && Priority[1] == KotlinCompileDaemonRule;
    assert Priority[2] == KotlinDaemonRule && Priority[3] == EmulatorRule && Priority[4] == AdbRule;
    assert Priority[5] == StudioMainRule && Priority[6] == FileWatcherRule;
    assert Priority[7] == BrowserHelperRule && Priority[8] == IdeRule;
    assert Priority[9] == GradleRule && Priority[10] == KotlinRule;
  }

  // ---- What the classification promises ----

  /** 'GradleDaemon' in the command line makes the process relevant and puts it in `gradle`,
      whatever other markers it carries. */
  lemma GradleDaemonWins(procName: string, cmd: string)
    requires Contains(cmd, "GradleDaemon")
    ensures Classify(procName, cmd).Some?
    ensures Classify(procName, cmd).value.category == Gradle
  {
    ContainsLower(cmd, "GradleDaemon");
    assert Lower("GradleDaemon") == "gradle" + "daemon";
    ContainsPrefix(Lower(cmd), "gradle", "daemon");
  }

  /** A Gradle daemon is named `GradleDaemon <v>` where `v` is the version that
      `GradleDaemon\s+(\d+\.\d+)` captures at its leftmost match, and plain `GradleDaemon`
      exactly when that expression matches nowhere in the command line. */
  lemma GradleDaemonNamed(procName: string, cmd: string)
    requires Contains(cmd, "GradleDaemon")
    ensures Classify(procName, cmd).Some?
    ensures var name := Classify(procName, cmd).value.name;
      && (name == "GradleDaemon" <==> NoMatch(GradleVersion, cmd))
      && (forall v :: Found(GradleVersion, cmd, v) <==> name == "GradleDaemon " + v)
  {
    GradleDaemonWins(procName, cmd);
    SearchIsRegex(GradleVersion, cmd);
    var name := Classify(procName, cmd).value.name;
    assert name == GradleDaemonName(cmd);
    forall v | name == "GradleDaemon " + v ensures Found(GradleVersion, cmd, v) {
      var w := Search(GradleVersion, cmd);
      assert w.Some? by { assert |name| != |"GradleDaemon"|; }
      assert v == name[13..] == w.value;
    }
  }

  /** The heap annotation is empty exactly when `-Xmx(\d+[mgMG])` matches nowhere; otherwise
      it is the capture of the leftmost match, upper-cased: that flag's digits and its unit. */
  lemma HeapSizeFromFlag(cmd: string)
    ensures HeapSize(cmd) == "" <==> NoMatch(MaxHeap, cmd)
    ensures forall v :: Found(MaxHeap, cmd, v) ==> HeapSize(cmd) == Upper(v)
    ensures var h := HeapSize(cmd); h != "" ==>
      && |h| >= 2 && AllDigits(h[..|h| - 1]) && h[|h| - 1] in "MG"
      && exists u | u in "mgMG" :: UpperChar(u) == h[|h| - 1] && Contains(cmd, "-Xmx" + h[..|h| - 1] + [u])
  {
    SearchIsRegex(MaxHeap, cmd);
    SearchFromIsLeftmost(MaxHeap, cmd, 0);
    var j := FirstMatchIndex(MaxHeap, cmd, 0);
    if j <= |cmd| {
      HeapCaptureShape(cmd, j);
    }
  }

  lemma HeapCaptureShape(cmd: string, j: nat)
    requires j <= |cmd| && MaxHeapAt(cmd, j).Some?
    ensures var h := Upper(MaxHeapAt(cmd, j).value);
      && |h| >= 2 && AllDigits(h[..|h| - 1]) && h[|h| - 1] in "MG"
      && exists u | u in "mgMG" :: UpperChar(u) == h[|h| - 1] && Contains(cmd, "-Xmx" + h[..|h| - 1] + [u])
  {
    var v := MaxHeapAt(cmd, j).value;
    var h := Upper(v);
    var u := v[|v| - 1];
    var digits := v[..|v| - 1];
    assert h[..|h| - 1] == digits by {
      forall k | 0 <= k < |digits| ensures h[k] == digits[k] {
        assert IsDigit(digits[k]);
      }
    }
    var flag := "-Xmx" + digits + [u];
    assert v == digits + [u];
    assert cmd[j..j + 4] == "-Xmx";
    assert cmd[j + 4..j + 4 + |v|] == v;
    assert cmd[j..j + |flag|] == cmd[j..j + 4] + cmd[j + 4..j + 4 + |v|];
    assert StartsAt(cmd, j, flag);
  }

  /** An emulator is named `Emulator: <avd>` after the leftmost `-avd\s+([^\s]+)` capture;
      when the command line has no such argument, `QEMU (Android Emulator)` for a process
      whose name contains 'qemu-system', else `Android Emulator`. */
  lemma EmulatorNamed(procName: string, cmd: string)
    requires IsRelevant(procName, cmd) && Classify(procName, cmd).value.category == Emulator
    ensures IsEmulator(procName, cmd)
    ensures var name := Classify(procName, cmd).value.name;
      && (forall avd :: Found(AvdName, cmd, avd) ==> name == "Emulator: " + avd)
      && (NoMatch(AvdName, cmd) ==>
            name == if Contains(Lower(procName), "qemu-system") then "QEMU (Android Emulator)" else "Android Emulator")
  {
    ClassifyFollowsPriority(procName, cmd);
    assert Branch(procName, cmd) == Some(EmulatorRule);
    SearchIsRegex(AvdName, cmd);
  }

  /** The Android Studio bucket: `ADB Server` exactly for an adb server; the main process
      named after the leftmost `android-studio[/-](\d+\.\d+)` capture in the lower-cased
      command line, or plain `Android Studio` when there is none; the rest by their helper. */
  lemma StudioNamed(procName: string, cmd: string)
    requires IsRelevant(procName, cmd) && Classify(procName, cmd).value.category == Studio
    ensures var name := Classify(procName, cmd).value.name;
      && (name == "ADB Server" <==> IsAdb(procName, cmd))
      && (!IsAdb(procName, cmd) && Fires(StudioMainRule, procName, cmd) ==>
            && (NoMatch(StudioVersion, Lower(cmd)) ==> name == "Android Studio")
            && (forall v :: Found(StudioVersion, Lower(cmd), v) ==> name == "Android Studio " + v))
      && (!IsAdb(procName, cmd) && !Fires(StudioMainRule, procName, cmd) ==>
            name == if Contains(Lower(procName), "fsnotifier") then "Studio File Watcher" else "Studio Browser Helper")
  {
    StudioBranch(procName, cmd);
    var rule := Branch(procName, cmd).value;
    var name := Classify(procName, cmd).value.name;
    assert name == RuleName(rule, procName, cmd);
    if rule == StudioMainRule {
      SearchIsRegex(StudioVersion, Lower(cmd));
      assert name[1] == 'n';
    }
  }

  /** Which of the four `studio` branches a process in that bucket took. */
  lemma StudioBranch(procName: string, cmd: string)
    requires IsRelevant(procName, cmd) && Classify(procName, cmd).value.category == Studio
    ensures Branch(procName, cmd) == Some(
      if IsAdb(procName, cmd) then AdbRule
      else if Fires(StudioMainRule, procName, cmd) then StudioMainRule
      else if Contains(Lower(procName), "fsnotifier") then FileWatcherRule
      else BrowserHelperRule)
  {
    var b := Branch(procName, cmd);
    assert b.Some? && RuleCategory(b.value) == Studio;
    assert b.value in {AdbRule, StudioMainRule, FileWatcherRule, BrowserHelperRule};
  }

  /** A process no rule names stays in `java` under the first 100 characters of its command
      line; it carries a Java or an Android Studio marker and no Gradle or Kotlin one. */
  lemma UnmatchedKeepsCommandLine(procName: string, cmd: string)
    requires IsRelevant(procName, cmd) && Classify(procName, cmd).value.category == Java
    ensures var name := Classify(procName, cmd).value.name;
      |name| == (if |cmd| < NameLimit then |cmd| else NameLimit) && name == cmd[..|name|]
    ensures IsJava(cmd) || IsStudio(cmd)
    ensures !IsGradle(cmd) && !IsKotlin(cmd) && !IsIde(procName, cmd) && !IsEmulator(procName, cmd)
  {
  }

  /** An IDE process takes the name of the first product in `Products` whose marker it
      carries, and `IDE` exactly when it carries none of them. */
  lemma IdeNamed(procName: string, cmd: string)
    requires IsRelevant(procName, cmd) && Classify(procName, cmd).value.category == Ide
    ensures IsIde(procName, cmd)
    ensures var k := FirstMarked(Products, procName, cmd);
      Classify(procName, cmd).value.name == if k < |Products| then ProductName(Products[k]) else "IDE"
    ensures Classify(procName, cmd).value.name == "IDE" <==>
      forall j :: 0 <= j < |Products| ==> !Marks(Products[j], procName, cmd)
  {
    var k := FirstMarked(Products, procName, cmd);
    IdeFollowsProducts(procName, cmd, k);
    if k < |Products| {
      assert ProductName(Products[k]) != "IDE" by {
        match Products[k]
        case Zed => assert "Zed"[0] != "IDE"[0];
        case _ =>
      }
    }
  }

  // ---- The IDE product lookup as a table ----

  /** The products the IDE branch recognises (app.py:1324-1343). */
  datatype Product = Cursor | Windsurf | VsCode | Trae | Antigravity | Zed | Fleet | Sublime | Neovim

  /** The products in the order the source tries them. */
  const Products: seq<Product> := [Cursor, Windsurf, VsCode, Trae, Antigravity, Zed, Fleet, Sublime, Neovim]

  /** The marker of a product, by itself. */
  predicate Marks(product: Product, procName: string, cmd: string) {
    var n := Lower(procName);
    match product
    case Cursor => Contains(n, "cursor") || Contains(cmd, "Cursor")
    case Windsurf => Contains(n, "windsurf") || Contains(cmd, "Windsurf")
    case VsCode => Contains(n, "code") || Contains(cmd, "Code.app") || Contains(cmd, "Visual Studio Code")
    case Trae => Contains(n, "trae") || Contains(cmd, "Trae")
    case Antigravity => Contains(n, "antigravity")
    case Zed => Contains(n, "zed") || Contains(cmd, "Zed")
    case Fleet => Contains(n, "fleet") || Contains(cmd, "Fleet")
    case Sublime => Contains(n, "sublime") || Contains(cmd, "Sublime")
    case Neovim => Contains(n, "nvim") || Contains(n, "neovim")
  }

  function ProductName(product: Product): string {
    match product
    case Cursor => "Cursor"
    case Windsurf => "Windsurf"
    case VsCode => "VS Code"
    case Trae => "Trae"
    case Antigravity => "Antigravity"
    case Zed => "Zed"
    case Fleet => "Fleet"
    case Sublime => "Sublime Text"
    case Neovim => "Neovim"
  }

  /** The index of the first product in `products` whose marker is present, or `|products|`. */
  function FirstMarked(products: seq<Product>, procName: string, cmd: string): (k: nat)
    ensures k <= |products|
    ensures forall j :: 0 <= j < k ==> !Marks(products[j], procName, cmd)
    ensures k < |products| ==> Marks(products[k], procName, cmd)
  {
    if products == [] then 0
    else if Marks(products[0], procName, cmd) then 0
    else 1 + FirstMarked(products[1..], procName, cmd)
  }

  lemma IdeFollowsProducts(procName: string, cmd: string, k: nat)
    requires k <= |Products|
    requires forall j :: 0 <= j < k ==> !Marks(Products[j], procName, cmd)
    requires k < |Products| ==> Marks(Products[k], procName, cmd)
    ensures IdeName(procName, cmd) == if k < |Products| then ProductName(Products[k]) else "IDE"
  {
    assert Products[0] == Cursor && Products[1] == Windsurf && Products[2] == VsCode;
    assert Products[3] == Trae && Products[4] == Antigravity && Products[5] == Zed;
    assert Products[6] == Fleet && Products[7] == Sublime && Products[8] == Neovim;
  }
}
