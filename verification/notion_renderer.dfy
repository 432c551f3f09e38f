/**
 * The page renderer's own logic: links to other Notion pages, and the rewrite that turns the
 * language class a code block arrives with into the identifier the syntax highlighter expects.
 */
module NotionRenderer {
  import opened Wrappers
  import Seqs
  import Strings

  /** `"https://www.notion.so/" + id.replace(/-/g, "")`. */
  function MapPageUrl(id: string): (r: string)
    ensures Strings.StartsWith(r, "https://www.notion.so/")
    ensures r[|"https://www.notion.so/"|..] == Seqs.Filter(id, NotDash)
    ensures '-' !in r[|"https://www.notion.so/"|..]
  {
    var tail := Seqs.Filter(id, NotDash);
    assert ("https://www.notion.so/" + tail)[|"https://www.notion.so/"|..] == tail;
    "https://www.notion.so/" + tail
  }

  predicate NotDash(c: char) {
    c != '-'
  }

  /** A page id without dashes maps to the Notion URL with the id appended unchanged. */
  lemma MapPageUrlUndashed(id: string)
    requires '-' !in id
    ensures MapPageUrl(id) == "https://www.notion.so/" + id
  {
    Seqs.FilterAll(id, NotDash);
  }

  /** The alias table: language names as Notion writes them, to the highlighter's identifiers. */
  function Aliases(): map<string, string> {
    map[
    "c#" := "csharp", "cs" := "csharp", "f#" := "fsharp", "fs" := "fsharp", "c++" := "cpp",
    "cplusplus" := "cpp", "obj-c" := "objectivec", "objective-c" := "objectivec", "objc" := "objectivec",
    "html" := "markup", "xhtml" := "markup", "xml" := "markup", "svg" := "markup", "mathml" := "markup",
    "js" := "javascript", "jsx" := "jsx", "ts" := "typescript", "tsx" := "tsx",
    "shell" := "bash", "sh" := "bash", "zsh" := "bash", "console" := "bash",
    "py" := "python", "rb" := "ruby", "yml" := "yaml", "md" := "markdown", "ps" := "powershell",
    "ps1" := "powershell", "golang" := "go", "docker" := "docker", "dockerfile" := "docker"
    ]
  }

  /** `ALIASES[key]` restricted to the table's own keys. */
  function Lookup(key: string): (r: Option<string>)
    ensures r.Some? <==> key in Aliases()
    ensures r.Some? ==> r.value == Aliases()[key]
  {
    if key in Aliases() then Some(Aliases()[key]) else None
  }

  predicate IsIdChar(c: char) {
    Strings.IsLowerAlnum(c) || c == '-'
  }

  predicate IsId(s: string) {
    forall i | 0 <= i < |s| :: IsIdChar(s[i])
  }

  predicate AllAlnum(s: string) {
    forall i | 0 <= i < |s| :: Strings.IsLowerAlnum(s[i])
  }

  /** The identifiers the table maps to. */
  function Targets(): set<string> {
    TargetsA() + TargetsB()
  }

  function TargetsA(): set<string> {
    {"csharp", "fsharp", "cpp", "objectivec", "markup", "javascript", "jsx", "typescript", "tsx"}
  }

  function TargetsB(): set<string> {
    {"bash", "python", "ruby", "yaml", "markdown", "powershell", "go", "docker"}
  }

  /** Every alias target is a non-empty run of `[a-z0-9]`. */
  lemma AliasTargets()
    ensures forall k | k in Aliases() :: AllAlnum(Aliases()[k]) && Aliases()[k] != ""
  {
    ValuesAreTargets();
    forall v | v in Targets() ensures AllAlnum(v) && v != "" {
      if v in TargetsA() {
        TargetsAAlnum(v);
      } else {
        TargetsBAlnum(v);
      }
    }
  }

  lemma ValuesAreTargets()
    ensures forall k | k in Aliases() :: Aliases()[k] in Targets()
  {
  }

  lemma TargetsAAlnum(v: string)
    requires v in TargetsA()
    ensures AllAlnum(v) && v != ""
  {
  }

  lemma TargetsBAlnum(v: string)
    requires v in TargetsB()
    ensures AllAlnum(v) && v != ""
  {
  }

  /** `raw.toLowerCase().trim()`. */
  function Sanitize(raw: string): string {
    Strings.Trim(Strings.ToLower(raw))
  }

  lemma SanitizeAlnum(s: string)
    requires AllAlnum(s)
    ensures Sanitize(s) == s
  {
    assert Strings.ToLower(s) == s;
    Strings.TrimNoop(s);
  }

  /** A name whose lower-case form has no outer whitespace sanitizes to that form. */
  lemma SanitizeVia(raw: string, lower: string)
    requires Strings.ToLower(raw) == lower
    requires |lower| > 0 && Strings.IsLowerAlnum(lower[0]) && Strings.IsLowerAlnum(lower[|lower| - 1])
    ensures Sanitize(raw) == lower
  {
    Strings.TrimNoop(lower);
  }

  /** `s.replace(/[^a-z0-9]+/g, "")`: every character outside `[a-z0-9]` removed. */
  function Compact(s: string): (r: string)
    ensures AllAlnum(r)
    ensures |r| <= |s|
  {
    if |s| == 0 then "" else (if Strings.IsLowerAlnum(s[0]) then [s[0]] else "") + Compact(s[1..])
  }

  lemma {:induction false} CompactAlnum(s: string)
    requires AllAlnum(s)
    ensures Compact(s) == s
    decreases |s|
  {
    if |s| > 0 {
      CompactAlnum(s[1..]);
      assert [s[0]] + s[1..] == s;
    }
  }

  /** The compact form is exactly the `[a-z0-9]` characters of the input, in order. */
  lemma {:induction false} CompactIsFilter(s: string)
    ensures Compact(s) == Seqs.Filter(s, Strings.IsLowerAlnum)
    decreases |s|
  {
    if |s| > 0 {
      CompactIsFilter(s[1..]);
      assert [s[0]] + s[1..] == s;
      Seqs.FilterCons(s[0], s[1..], Strings.IsLowerAlnum);
    }
  }

  /** `s` without its leading run of characters outside `[a-z0-9]`. */
  function SkipRun(s: string): (r: string)
    ensures |r| <= |s| && r == s[|s| - |r|..]
    ensures |r| == 0 || Strings.IsLowerAlnum(r[0])
    ensures Compact(r) == Compact(s)
  {
    if |s| == 0 || Strings.IsLowerAlnum(s[0]) then s else SkipRun(s[1..])
  }

  /** `s.replace(/[^a-z0-9]+/g, "-")`: each run of characters outside `[a-z0-9]` becomes one `-`. */
  function Dashed(s: string): (r: string)
    ensures IsId(r)
    ensures |s| > 0 && Strings.IsLowerAlnum(s[0]) ==> |r| > 0 && r[0] == s[0]
    ensures |s| > 0 ==> |r| > 0
    decreases |s|
  {
    if |s| == 0 then ""
    else if Strings.IsLowerAlnum(s[0]) then [s[0]] + Dashed(s[1..])
    else "-" + Dashed(SkipRun(s[1..]))
  }

  predicate NoAlnum(s: string) {
    forall i | 0 <= i < |s| :: !Strings.IsLowerAlnum(s[i])
  }

  /**
   * An alphanumeric part, then a whole run of other characters, then the rest: the part is kept,
   * the run becomes one `-`, and the rest is dashed on its own.
   */
  lemma DashedRun(a: string, run: string, b: string)
    requires AllAlnum(a) && |run| > 0 && NoAlnum(run)
    requires |b| == 0 || Strings.IsLowerAlnum(b[0])
    ensures Dashed(a + run + b) == a + "-" + Dashed(b)
  {
    DashedAlnumPrefix(a, run + b);
    RunBecomesDash(run, b);
    Assoc(a, run, b);
    Assoc(a, "-", Dashed(b));
  }

  lemma Assoc(x: string, y: string, z: string)
    ensures x + y + z == x + (y + z)
  {
  }

  lemma RunBecomesDash(run: string, b: string)
    requires |run| > 0 && NoAlnum(run)
    requires |b| == 0 || Strings.IsLowerAlnum(b[0])
    ensures Dashed(run + b) == "-" + Dashed(b)
  {
    var t := run + b;
    assert t[0] == run[0] && t[1..] == run[1..] + b;
    SkipWholeRun(run[1..], b);
  }

  lemma {:induction false} SkipWholeRun(run: string, b: string)
    requires NoAlnum(run)
    requires |b| == 0 || Strings.IsLowerAlnum(b[0])
    ensures SkipRun(run + b) == b
    decreases |run|
  {
    if |run| > 0 {
      assert (run + b)[0] == run[0] && (run + b)[1..] == run[1..] + b;
      SkipWholeRun(run[1..], b);
    } else {
      assert run + b == b;
    }
  }

  predicate NoDoubleDash(r: string) {
    forall i | 0 <= i < |r| - 1 :: !(r[i] == '-' && r[i + 1] == '-')
  }

  /** The dashed form never holds two dashes in a row: a whole run becomes one dash. */
  lemma {:induction false} DashedNoDoubleDash(s: string)
    ensures NoDoubleDash(Dashed(s))
    decreases |s|
  {
    if |s| > 0 {
      if Strings.IsLowerAlnum(s[0]) {
        DashedNoDoubleDash(s[1..]);
        ConsNoDoubleDash(s[0], Dashed(s[1..]));
      } else {
        var t := SkipRun(s[1..]);
        DashedNoDoubleDash(t);
        ConsNoDoubleDash('-', Dashed(t));
      }
    }
  }

  lemma ConsNoDoubleDash(c: char, d: string)
    requires NoDoubleDash(d)
    requires c == '-' ==> |d| == 0 || d[0] != '-'
    ensures NoDoubleDash([c] + d)
  {
    var r := [c] + d;
    forall i | 0 <= i < |r| - 1 ensures !(r[i] == '-' && r[i + 1] == '-') {
      if i > 0 {
        assert r[i] == d[i - 1] && r[i + 1] == d[i];
      }
    }
  }

  lemma {:induction false} DashedAlnum(s: string)
    requires AllAlnum(s)
    ensures Dashed(s) == s
    decreases |s|
  {
    if |s| > 0 {
      DashedAlnum(s[1..]);
      assert [s[0]] + s[1..] == s;
    }
  }

  /** An alphanumeric prefix passes through `Compact` unchanged. */
  lemma {:induction false} CompactAlnumPrefix(a: string, b: string)
    requires AllAlnum(a)
    ensures Compact(a + b) == a + Compact(b)
    decreases |a|
  {
    if |a| > 0 {
      assert (a + b)[0] == a[0] && (a + b)[1..] == a[1..] + b;
      CompactAlnumPrefix(a[1..], b);
      assert [a[0]] + (a[1..] + Compact(b)) == a + Compact(b);
    } else {
      assert a + b == b;
    }
  }

  /** An alphanumeric prefix passes through `Dashed` unchanged. */
  lemma {:induction false} DashedAlnumPrefix(a: string, b: string)
    requires AllAlnum(a)
    ensures Dashed(a + b) == a + Dashed(b)
    decreases |a|
  {
    if |a| > 0 {
      assert (a + b)[0] == a[0] && (a + b)[1..] == a[1..] + b;
      DashedAlnumPrefix(a[1..], b);
      assert [a[0]] + (a[1..] + Dashed(b)) == a + Dashed(b);
    } else {
      assert a + b == b;
    }
  }

  /** Dropping the dashes of the dashed form gives the compact form. */
  lemma {:induction false} CompactOfDashed(s: string)
    ensures Compact(Dashed(s)) == Compact(s)
    decreases |s|
  {
    if |s| > 0 {
      if Strings.IsLowerAlnum(s[0]) {
        CompactOfDashed(s[1..]);
        assert ([s[0]] + Dashed(s[1..]))[1..] == Dashed(s[1..]);
      } else {
        var t := SkipRun(s[1..]);
        CompactOfDashed(t);
        assert ("-" + Dashed(t))[1..] == Dashed(t);
      }
    }
  }

  /** The identifier for an already sanitized name: its alias, else its compact form's alias, else its dashed form. */
  function Resolve(s: string): (r: string)
    ensures IsId(r)
  {
    AliasTargets();
    var direct := Lookup(s);
    if direct.Some? then direct.value
    else
      var compact := Lookup(Compact(s));
      if compact.Some? then compact.value else Dashed(s)
  }

  /** `canonical(raw)`. */
  function Canonical(raw: string): (r: string)
    ensures IsId(r)
  {
    Resolve(Sanitize(raw))
  }

  /**
   * The lookup as written: `ALIASES[key]` on a plain object also finds the members every object
   * inherits, and of those `constructor` and `__proto__` are lower case; they stringify with spaces.
   */
  function LookupAsWritten(key: string): Option<string> {
    if key == "constructor" then Some("function Object() { [native code] }")
    else if key == "__proto__" then Some("[object Object]")
    else Lookup(key)
  }

  /** The table lookup and the plain-object lookup differ exactly on the inherited `constructor` and `__proto__`. */
  lemma LookupAsWrittenDiffers(key: string)
    ensures LookupAsWritten(key) != Lookup(key) <==> key == "constructor" || key == "__proto__"
  {
    InheritedNotKeys();
  }

  lemma InheritedNotKeys()
    ensures "constructor" !in Aliases() && "__proto__" !in Aliases()
  {
  }

  function ResolveAsWritten(s: string): string {
    var direct := LookupAsWritten(s);
    if direct.Some? then direct.value
    else
      var compact := LookupAsWritten(Compact(s));
      if compact.Some? then compact.value else Dashed(s)
  }

  function CanonicalAsWritten(raw: string): string {
    ResolveAsWritten(Sanitize(raw))
  }

  /** As written, a block tagged `constructor` gets a class with spaces in it, which `classList.add` rejects. */
  lemma CanonicalAsWrittenConstructor()
    ensures ' ' in CanonicalAsWritten("constructor")
    ensures !IsId(CanonicalAsWritten("constructor"))
  {
    ConstructorAsWritten();
    var t := CanonicalAsWritten("constructor");
    assert t[8] == ' ';
    SpaceBreaksId(t, 8);
  }

  lemma ConstructorAsWritten()
    ensures CanonicalAsWritten("constructor") == "function Object() { [native code] }"
  {
    SanitizeAlnum("constructor");
    assert LookupAsWritten("constructor").Some?;
  }

  lemma SpaceBreaksId(t: string, i: nat)
    requires i < |t| && t[i] == ' '
    ensures ' ' in t && !IsId(t)
  {
    assert !IsIdChar(t[i]);
  }

  /** A sanitized name that is a key resolves to its alias. */
  lemma ResolveHit(s: string)
    requires s in Aliases()
    ensures Resolve(s) == Aliases()[s]
  {
  }

  /** A sanitized name whose plain and compact forms are both unknown resolves to its dashed form. */
  lemma ResolveMiss(s: string)
    requires s !in Aliases() && Compact(s) !in Aliases()
    ensures Resolve(s) == Dashed(s)
  {
  }

  /** The documented aliases: `" C# "` is `csharp` and `Shell` is `bash`. */
  lemma CanonicalAliasExamples()
    ensures Canonical(" C# ") == "csharp"
    ensures Canonical("Shell") == "bash"
  {
    SanitizeCSharp();
    SanitizeShell();
    ExampleKeys();
    ResolveHit("c#");
    ResolveHit("shell");
  }

  lemma ExampleKeys()
    ensures "c#" in Aliases() && Aliases()["c#"] == "csharp"
    ensures "shell" in Aliases() && Aliases()["shell"] == "bash"
    ensures "objective-c" in Aliases() && Aliases()["objective-c"] == "objectivec"
  {
    KeyCSharp();
    KeyShell();
    KeyObjectiveC();
  }

  lemma KeyCSharp()
    ensures "c#" in Aliases() && Aliases()["c#"] == "csharp"
  {
  }

  lemma KeyShell()
    ensures "shell" in Aliases() && Aliases()["shell"] == "bash"
  {
  }

  lemma KeyObjectiveC()
    ensures "objective-c" in Aliases() && Aliases()["objective-c"] == "objectivec"
  {
  }

  lemma SanitizeCSharp()
    ensures Sanitize(" C# ") == "c#"
  {
    LowerCSharp();
    TrimCSharp();
  }

  lemma LowerCSharp()
    ensures Strings.ToLower(" C# ") == " c# "
  {
  }

  lemma TrimCSharp()
    ensures Strings.Trim(" c# ") == "c#"
  {
    Strings.TrimPadded("c#");
    assert " c# " == " " + "c#" + " ";
  }

  lemma SanitizeShell()
    ensures Sanitize("Shell") == "shell"
  {
    LowerShell();
    SanitizeVia("Shell", "shell");
  }

  lemma LowerShell()
    ensures Strings.ToLower("Shell") == "shell"
  {
    var r := Strings.ToLower("Shell");
    assert r[0] == 's' && r[1] == 'h' && r[2] == 'e' && r[3] == 'l' && r[4] == 'l';
  }

  /** A second pass may change the class again: `objective c` first becomes `objective-c`, then `objectivec`. */
  lemma CanonicalNotIdempotent()
    ensures Canonical("objective c") == "objective-c"
    ensures Canonical("objective-c") == "objectivec"
  {
    SanitizePlain("objective c");
    SanitizePlain("objective-c");
    ObjectiveSpaceResolves();
    ExampleKeys();
    ResolveHit("objective-c");
  }

  lemma SanitizePlain(s: string)
    requires s == "objective c" || s == "objective-c"
    ensures Sanitize(s) == s
  {
    assert Strings.ToLower(s) == s;
    Strings.TrimNoop(s);
  }

  lemma ObjectiveSpaceResolves()
    ensures Resolve("objective c") == "objective-c"
  {
    SplitObjective();
    ObjectiveParts();
    NotKeys();
    ResolveMiss("objective c");
  }

  lemma SplitObjective()
    ensures "objective c" == "objective" + " c"
    ensures "objective" + "-c" == "objective-c"
    ensures "objective" + "c" == "objectivec"
    ensures AllAlnum("objective")
  {
  }

  lemma ObjectiveParts()
    ensures Dashed("objective" + " c") == "objective" + "-c"
    ensures Compact("objective" + " c") == "objective" + "c"
  {
    SplitObjective();
    CompactAlnumPrefix("objective", " c");
    DashedAlnumPrefix("objective", " c");
    TailParts();
  }

  lemma TailParts()
    ensures Dashed(" c") == "-c" && Compact(" c") == "c"
  {
    assert " c"[1..] == "c";
    DashedAlnum("c");
    CompactAlnum("c");
  }

  lemma NotKeys()
    ensures "objective c" !in Aliases() && "objectivec" !in Aliases()
  {
  }

  /** A name that is no key may still resolve through its compact form: `Docker File` is `docker`. */
  lemma CanonicalCompactExample()
    ensures Canonical("Docker File") == "docker"
  {
    SanitizeDockerFile();
    DockerFileParts();
    DockerKeys();
  }

  lemma SanitizeDockerFile()
    ensures Sanitize("Docker File") == "docker file"
  {
    LowerDockerFile();
    SanitizeVia("Docker File", "docker file");
  }

  lemma LowerDockerFile()
    ensures Strings.ToLower("Docker File") == "docker file"
  {
    var r := Strings.ToLower("Docker File");
    assert r[0] == 'd' && r[7] == 'f';
  }

  lemma DockerFileParts()
    ensures Compact("docker file") == "dockerfile"
  {
    SplitDockerFile();
    CompactAlnumPrefix("docker", " file");
    FileTail();
  }

  lemma SplitDockerFile()
    ensures "docker file" == "docker" + " file"
    ensures "docker" + "file" == "dockerfile"
    ensures AllAlnum("docker")
  {
  }

  lemma FileTail()
    ensures Compact(" file") == "file"
  {
    assert " file"[1..] == "file";
    CompactAlnum("file");
  }

  lemma DockerKeys()
    ensures "docker file" !in Aliases()
    ensures "dockerfile" in Aliases() && Aliases()["dockerfile"] == "docker"
  {
  }

  const Prefix := "language-"

  predicate IsLanguageClass(c: string) {
    Strings.StartsWith(c, Prefix)
  }

  predicate NotLanguageClass(c: string) {
    !IsLanguageClass(c)
  }

  predicate NotLanguageNone(c: string) {
    c != "language-none"
  }

  /**
   * A `pre` or `code` element: whether it is `code`, its class list, and whether it holds highlighted
   * tokens. A browser's class list holds each class once; the contracts below do not rely on that, so
   * a list with a repeated `language-` class is a case the browser never produces.
   */
  datatype Element = Element(isCode: bool, classes: seq<string>, tokenized: bool)

  /** `classes.find(c => c.startsWith("language-"))`: the first `language-*` class. */
  function FirstLanguageClass(classes: seq<string>): (r: Option<string>)
    ensures r.Some? ==> r.value in classes && IsLanguageClass(r.value)
    ensures r.Some? ==> FirstAt(classes, r.value)
    ensures r.None? ==> forall c | c in classes :: !IsLanguageClass(c)
  {
    if |classes| == 0 then None
    else if IsLanguageClass(classes[0]) then
      assert FirstAt(classes, classes[0]) by { assert classes[0] == classes[0]; }
      Some(classes[0])
    else
      var r := FirstLanguageClass(classes[1..]);
      if r.Some? then FirstAtStep(classes, r.value); r else r
  }

  /** `c` sits at some index of `classes` with no `language-*` class before it. */
  ghost predicate FirstAt(classes: seq<string>, c: string) {
    exists i | 0 <= i < |classes| :: classes[i] == c && forall j | 0 <= j < i :: !IsLanguageClass(classes[j])
  }

  lemma FirstAtStep(classes: seq<string>, c: string)
    requires |classes| > 0 && !IsLanguageClass(classes[0]) && FirstAt(classes[1..], c)
    ensures FirstAt(classes, c)
  {
    var i :| 0 <= i < |classes[1..]| && classes[1..][i] == c
      && forall j | 0 <= j < i :: !IsLanguageClass(classes[1..][j]);
    assert classes[i + 1] == c;
    forall j | 0 <= j < i + 1 ensures !IsLanguageClass(classes[j]) {
      if j > 0 { assert classes[j] == classes[1..][j - 1]; }
    }
  }

  /** The first language class is the first of all of them. */
  lemma FirstIsFilterHead(classes: seq<string>)
    ensures FirstLanguageClass(classes).Some? ==>
      Seqs.Filter(classes, IsLanguageClass) != []
      && Seqs.Filter(classes, IsLanguageClass)[0] == FirstLanguageClass(classes).value
  {
    if |classes| > 0 {
      Seqs.ConsSplit(classes);
      Seqs.FilterCons(classes[0], classes[1..], IsLanguageClass);
      if !IsLanguageClass(classes[0]) {
        FirstIsFilterHead(classes[1..]);
      }
    }
  }

  /** The class the pass gives an element whose first language class is `lang`: `language-` + canonical(raw id). */
  function Normalized(lang: string): string
    requires IsLanguageClass(lang)
  {
    Prefix + Canonical(lang[|Prefix|..])
  }

  /** The class an element must be given, or `None` when it is skipped or already normalized. */
  function Target(el: Element): (r: Option<string>)
    ensures r.Some? ==> IsLanguageClass(r.value)
    ensures FirstLanguageClass(el.classes).None? ==> r.None?
    ensures el.isCode && el.tokenized ==> r.None?
    ensures r.Some? ==>
      FirstLanguageClass(el.classes).Some? && r.value == Normalized(FirstLanguageClass(el.classes).value)
    ensures !(el.isCode && el.tokenized) && FirstLanguageClass(el.classes).Some? ==>
      (r.None? <==> Seqs.Filter(el.classes, IsLanguageClass) == [Normalized(FirstLanguageClass(el.classes).value)])
  {
    var lang := FirstLanguageClass(el.classes);
    FirstIsFilterHead(el.classes);
    if el.isCode && el.tokenized then None
    else
      if lang.None? then None
      else
        var normalized := Prefix + Canonical(lang.value[|Prefix|..]);
        assert normalized[..|Prefix|] == Prefix;
        if lang.value == normalized && |Seqs.Filter(el.classes, IsLanguageClass)| == 1 then None
        else Some(normalized)
  }

  /** Every `language-*` class removed, then `normalized` added. */
  function Retag(el: Element, normalized: string): (r: Element)
    requires IsLanguageClass(normalized)
    ensures Seqs.Filter(r.classes, IsLanguageClass) == [normalized]
    ensures Seqs.Filter(r.classes, NotLanguageClass) == Seqs.Filter(el.classes, NotLanguageClass)
    ensures r.isCode == el.isCode && r.tokenized == el.tokenized
  {
    var kept := Seqs.Filter(el.classes, NotLanguageClass);
    FilterSplit(kept, [normalized]);
    NoneMatch(kept);
    Seqs.FilterAll(kept, NotLanguageClass);
    assert IsLanguageClass(normalized);
    el.(classes := kept + [normalized])
  }

  lemma FilterSplit(a: seq<string>, b: seq<string>)
    ensures Seqs.Filter(a + b, IsLanguageClass) == Seqs.Filter(a, IsLanguageClass) + Seqs.Filter(b, IsLanguageClass)
    ensures Seqs.Filter(a + b, NotLanguageClass) == Seqs.Filter(a, NotLanguageClass) + Seqs.Filter(b, NotLanguageClass)
  {
    Seqs.FilterAppend(a, b, IsLanguageClass);
    Seqs.FilterAppend(a, b, NotLanguageClass);
  }

  lemma NoneMatch(kept: seq<string>)
    requires forall c | c in kept :: NotLanguageClass(c)
    ensures Seqs.Filter(kept, IsLanguageClass) == []
  {
    var r := Seqs.Filter(kept, IsLanguageClass);
    assert forall i | 0 <= i < |r| :: r[i] in r;
  }

  /**
   * One visit of the pass: an element whose class needs normalizing is retagged together with its
   * partner (the `code` inside a `pre`, or the `pre` around a `code`), after `language-none` is dropped.
   */
  function Visit(el: Element, partner: Option<Element>): (r: (Element, Option<Element>))
    ensures r.1.Some? <==> partner.Some?
    ensures var e := DropNone(el); Target(e).Some? ==>
      && Seqs.Filter(r.0.classes, IsLanguageClass) == [Normalized(FirstLanguageClass(e.classes).value)]
      && (r.1.Some? ==> Seqs.Filter(r.1.value.classes, IsLanguageClass) == [Normalized(FirstLanguageClass(e.classes).value)])
    ensures var t := Target(DropNone(el));
      && (t.None? ==> r == (DropNone(el), if partner.Some? then Some(DropNone(partner.value)) else None))
      && (t.Some? ==> Seqs.Filter(r.0.classes, IsLanguageClass) == [t.value])
      && (t.Some? && r.1.Some? ==> Seqs.Filter(r.1.value.classes, IsLanguageClass) == [t.value])
  {
    var e := DropNone(el);
    var p := if partner.Some? then Some(DropNone(partner.value)) else None;
    var t := Target(e);
    if t.None? then (e, p)
    else (Retag(e, t.value), if p.Some? then Some(Retag(p.value, t.value)) else None)
  }

  function DropNone(el: Element): (r: Element)
    ensures "language-none" !in r.classes
    ensures forall c | c in el.classes && c != "language-none" :: c in r.classes
  {
    el.(classes := Seqs.Filter(el.classes, NotLanguageNone))
  }

  /** A retagged element needs nothing more when its class is a fixed point of `canonical`. */
  lemma RetaggedIsStable(el: Element, id: string)
    requires Canonical(id) == id && !(el.isCode && el.tokenized)
    ensures Target(Retag(el, Prefix + id)) == None
  {
    var r := Retag(el, Prefix + id);
    assert (Prefix + id)[..|Prefix|] == Prefix;
    var first := FirstLanguageClass(r.classes);
    assert first.Some? by {
      assert Prefix + id in Seqs.Filter(r.classes, IsLanguageClass);
    }
    assert first.value in Seqs.Filter(r.classes, IsLanguageClass);
    assert (Prefix + id)[|Prefix|..] == id;
  }
}
