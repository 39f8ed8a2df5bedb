/**
 * The free-bot catalog of the main page: how a bot file name becomes a
 * title, how the title is classified into a category and given a
 * description, which icon and gradient a category is shown with, and the
 * order the catalog is listed in. The two classifiers are ordered chains
 * of keyword tests; each is written here as its table of rules, in source
 * order, read by a first-match lookup.
 */
module BotCatalog {
  import opened Options
  import opened JsText

  // ---------------------------------------------------------------------
  // Ordered keyword rules
  // ---------------------------------------------------------------------

  /** A rule fires when any of its keywords, or all of them, occur in the name. */
  datatype Keywords = AnyOf(words: seq<string>) | AllOf(words: seq<string>)

  datatype Rule<T> = Rule(keywords: Keywords, result: T)

  predicate Fires(name: string, k: Keywords)
  {
    match k
    case AnyOf(words) => exists w :: w in words && Includes(name, w)
    case AllOf(words) => forall w :: w in words ==> Includes(name, w)
  }

  /** The position of the first rule that fires, if any. */
  function FirstFiring<T>(rules: seq<Rule<T>>, name: string): (r: Option<nat>)
    ensures r.Some? ==> r.value < |rules| && Fires(name, rules[r.value].keywords)
    ensures r.Some? ==> forall j :: 0 <= j < r.value ==> !Fires(name, rules[j].keywords)
    ensures r.None? ==> forall j :: 0 <= j < |rules| ==> !Fires(name, rules[j].keywords)
  {
    if rules == [] then None
    else if Fires(name, rules[0].keywords) then Some(0)
    else match FirstFiring(rules[1..], name)
      case None => None
      case Some(k) => Some(k + 1)
  }

  /** The result of the first rule that fires, or the fallback when none does. */
  function FirstMatch<T>(rules: seq<Rule<T>>, name: string, fallback: T): T
  {
    match FirstFiring(rules, name)
    case None => fallback
    case Some(k) => rules[k].result
  }

  /** The rule at k decides the lookup when it fires and no earlier rule does. */
  lemma FirstMatchAt<T>(rules: seq<Rule<T>>, name: string, fallback: T, k: nat)
    requires k < |rules| && Fires(name, rules[k].keywords)
    requires forall j :: 0 <= j < k ==> !Fires(name, rules[j].keywords)
    ensures FirstMatch(rules, name, fallback) == rules[k].result
  {
    var r := FirstFiring(rules, name);
    assert r.Some?;
    assert !(r.value < k) && !(k < r.value);
  }

  /** When no rule yields the fallback, the fallback comes out exactly when no rule fires. */
  lemma FallbackIffNoneFires<T>(rules: seq<Rule<T>>, name: string, fallback: T)
    requires forall j :: 0 <= j < |rules| ==> rules[j].result != fallback
    ensures FirstMatch(rules, name, fallback) == fallback <==>
      forall j :: 0 <= j < |rules| ==> !Fires(name, rules[j].keywords)
  {
  }

  // ---------------------------------------------------------------------
  // Categories
  // ---------------------------------------------------------------------

  datatype Category =
    | GhostStrategies | AiExpert | OverUnder | CfxTrading | AutoStrategies
    | D6Strategies | DigitStrategies | MasterBots | PremiumStrategies | General

  /** The text of each category label, without its leading emoji. */
  function CategoryLabel(c: Category): string
  {
    match c
    case GhostStrategies => "Ghost Strategies"
    case AiExpert => "AI & Expert"
    case OverUnder => "Over/Under"
    case CfxTrading => "CFX Trading"
    case AutoStrategies => "Auto Strategies"
    case D6Strategies => "D6 Strategies"
    case DigitStrategies => "Digit Strategies"
    case MasterBots => "Master Bots"
    case PremiumStrategies => "Premium Strategies"
    case General => "General"
  }

  /** Distinct categories have distinct labels, so comparing labels is comparing categories. */
  lemma CategoryLabelInjective(a: Category, b: Category)
    ensures CategoryLabel(a) == CategoryLabel(b) <==> a == b
  {
    if a != b {
      var la, lb := CategoryLabel(a), CategoryLabel(b);
      assert la[0] != lb[0] || la[1] != lb[1] || |la| != |lb|;
    }
  }

  /** The keyword tests of categorizeBotByName, in source order. */
  const CategoryRules: seq<Rule<Category>> := [
    Rule(AnyOf(["ghost", "odin"]), GhostStrategies),
    Rule(AnyOf(["ai", "game changer", "expert", "alpha"]), AiExpert),
    Rule(AnyOf(["over", "under", "raziel", "g7", "king"]), OverUnder),
    Rule(AnyOf(["dexterator", "cfx"]), CfxTrading),
    Rule(AnyOf(["auto", "m27", "m7m"]), AutoStrategies),
    Rule(AnyOf(["d6", "duke"]), D6Strategies),
    Rule(AnyOf(["digit", "differ", "ldp", "random"]), DigitStrategies),
    Rule(AnyOf(["master bot", "ceo", "elvis"]), MasterBots),
    Rule(AnyOf(["las vegas", "armor", "hyper"]), PremiumStrategies)
  ]

  /** categorizeBotByName: the first rule firing on the lower-cased name, General when none does. */
  function CategorizeBotByName(botName: string): Category
  {
    FirstMatch(CategoryRules, ToLower(botName), General)
  }

  /** Each rule yields its own category, and none yields General. */
  lemma CategoryResultsDistinct()
    ensures forall i, j :: 0 <= i < j < |CategoryRules| ==> CategoryRules[i].result != CategoryRules[j].result
    ensures forall j :: 0 <= j < |CategoryRules| ==> CategoryRules[j].result != General
  {
  }

  /** The category is that of rule k exactly when rule k fires on the lower-cased name and no earlier rule does. */
  lemma CategorizeFirstMatch(botName: string, k: nat)
    requires k < |CategoryRules|
    ensures CategorizeBotByName(botName) == CategoryRules[k].result <==>
      Fires(ToLower(botName), CategoryRules[k].keywords) &&
      forall j :: 0 <= j < k ==> !Fires(ToLower(botName), CategoryRules[j].keywords)
  {
    var n := ToLower(botName);
    CategoryResultsDistinct();
    if Fires(n, CategoryRules[k].keywords) && forall j :: 0 <= j < k ==> !Fires(n, CategoryRules[j].keywords) {
      FirstMatchAt(CategoryRules, n, General, k);
    }
  }

  /** Only the lower-cased name matters. */
  lemma CategorizeIgnoresCase(botName: string)
    ensures CategorizeBotByName(ToLower(botName)) == CategorizeBotByName(botName)
  {
    ToLowerIdempotent(botName);
  }

  /** A name mentioning ghost or odin is a ghost strategy, whatever else it mentions. */
  lemma GhostWins(botName: string)
    requires Includes(ToLower(botName), "ghost") || Includes(ToLower(botName), "odin")
    ensures CategorizeBotByName(botName) == GhostStrategies
  {
    FirstMatchAt(CategoryRules, ToLower(botName), General, 0);
  }

  /** General is the category of exactly the names that no rule fires on. */
  lemma GeneralIffNoKeyword(botName: string)
    ensures CategorizeBotByName(botName) == General <==>
      forall j :: 0 <= j < |CategoryRules| ==> !Fires(ToLower(botName), CategoryRules[j].keywords)
  {
    CategoryResultsDistinct();
    FallbackIffNoneFires(CategoryRules, ToLower(botName), General);
  }

  // ---------------------------------------------------------------------
  // Descriptions
  // ---------------------------------------------------------------------

  const DefaultDescription: string := "Professional trading strategy with optimized parameters"

  /** The keyword tests of getBotDescription, in source order. */
  const DescriptionRules: seq<Rule<string>> := [
    Rule(AnyOf(["game changer"]), "Revolutionary AI-powered trading bot with adaptive algorithms"),
    Rule(AnyOf(["dexterator ai"]), "Advanced AI-powered Dexterator strategy with machine learning"),
    Rule(AnyOf(["expert seed"]), "Expert-level seed strategy with professional market analysis"),
    Rule(AnyOf(["alpha"]), "Alpha generation strategy for consistent market outperformance"),
    Rule(AnyOf(["ghost", "odin"]), "Stealth trading strategy with advanced prediction algorithms"),
    Rule(AnyOf(["raziel"]), "Sophisticated Over/Under strategy with hot/cold zone detection"),
    Rule(AllOf(["over", "under"]), "Professional Over/Under strategy with intelligent market timing"),
    Rule(AnyOf(["g.7over", "g7"]), "G7 Over/Under professional strategy with advanced analytics"),
    Rule(AnyOf(["king auto"]), "Royal Over 2 Under 7 strategy with automated precision"),
    Rule(AllOf(["dexterator", "cfx"]), "Professional CFX strategy with hit & run methodology"),
    Rule(AnyOf(["m27"]), "Auto-switching strategy that adapts to market conditions"),
    Rule(AnyOf(["m7m"]), "M7M Version 3.2 - Still amazing auto-trading strategy"),
    Rule(AnyOf(["master bot v6"]), "Master Bot V6 by CEO Gatimu - Professional grade strategy"),
    Rule(AnyOf(["master bot v7"]), "Master Bot V7 by Elvis Trades - Advanced trading system"),
    Rule(AnyOf(["digit differ", "ddiffer"]), "Advanced digit difference strategy with randomization"),
    Rule(AnyOf(["digit hyper"]), "Hyper-speed digit trading with precision algorithms"),
    Rule(AnyOf(["diff smart"]), "Smart difference strategy with intelligent market analysis"),
    Rule(AnyOf(["d6 deriv"]), "Advanced D6 strategy with intelligent market analysis and risk management"),
    Rule(AnyOf(["las vegas"]), "Las Vegas style high-stakes trading strategy"),
    Rule(AnyOf(["delirium"]), "High-performance Over 3 strategy for experienced traders"),
    Rule(AnyOf(["random ldp"]), "Random LDP strategy with advanced market prediction"),
    Rule(AnyOf(["armor ai"]), "Armored AI protection with Over2/Under7 strategy")
  ]

  /** getBotDescription: the first rule firing on the lower-cased name, the default when none does. */
  function GetBotDescription(botName: string): string
  {
    FirstMatch(DescriptionRules, ToLower(botName), DefaultDescription)
  }

  /** The description is that of rule k whenever rule k fires on the lower-cased name and no earlier rule does. */
  lemma DescriptionFirstMatch(botName: string, k: nat)
    requires k < |DescriptionRules|
    requires Fires(ToLower(botName), DescriptionRules[k].keywords)
    requires forall j :: 0 <= j < k ==> !Fires(ToLower(botName), DescriptionRules[j].keywords)
    ensures GetBotDescription(botName) == DescriptionRules[k].result
  {
    FirstMatchAt(DescriptionRules, ToLower(botName), DefaultDescription, k);
  }

  /** 'game changer' wins over every later keyword. */
  lemma GameChangerWins(botName: string)
    requires Includes(ToLower(botName), "game changer")
    ensures GetBotDescription(botName) == "Revolutionary AI-powered trading bot with adaptive algorithms"
  {
    FirstMatchAt(DescriptionRules, ToLower(botName), DefaultDescription, 0);
  }

  /** No rule yields the default description. */
  lemma DescriptionResultsNotDefault()
    ensures forall j :: 0 <= j < |DescriptionRules| ==> DescriptionRules[j].result != DefaultDescription
  {
    forall j | 0 <= j < |DescriptionRules|
      ensures DescriptionRules[j].result != DefaultDescription
    {
      assert j == 0 || j == 1 || j == 2 || j == 3 || j == 4 || j == 5 || j == 6 || j == 7 ||
             j == 8 || j == 9 || j == 10 || j == 11 || j == 12 || j == 13 || j == 14 || j == 15 ||
             j == 16 || j == 17 || j == 18 || j == 19 || j == 20 || j == 21;
      var d := DescriptionRules[j].result;
      assert |d| != |DefaultDescription| || d[|d| - 1] != DefaultDescription[|DefaultDescription| - 1];
    }
  }

  /** The default description is given exactly when no rule fires. */
  lemma DefaultDescriptionIffNoKeyword(botName: string)
    ensures GetBotDescription(botName) == DefaultDescription <==>
      forall j :: 0 <= j < |DescriptionRules| ==> !Fires(ToLower(botName), DescriptionRules[j].keywords)
  {
    DescriptionResultsNotDefault();
    FallbackIffNoneFires(DescriptionRules, ToLower(botName), DefaultDescription);
  }

  // ---------------------------------------------------------------------
  // Icons and gradients
  // ---------------------------------------------------------------------

  /** The emoji getBotIcon returns, by what it pictures. */
  datatype Icon = GhostIcon | RobotIcon | TargetIcon | LightningIcon | CycleIcon | DiceIcon | WrenchIcon

  /** getBotIcon: case-sensitive tests on the category label. */
  function GetBotIcon(category: string): Icon
  {
    if Includes(category, "Ghost") then GhostIcon
    else if Includes(category, "AI") then RobotIcon
    else if Includes(category, "Over/Under") then TargetIcon
    else if Includes(category, "CFX") then LightningIcon
    else if Includes(category, "Auto") then CycleIcon
    else if Includes(category, "D6") then DiceIcon
    else WrenchIcon
  }

  /** getBotIconGradient: the same tests, returning the CSS gradient. */
  function GetBotIconGradient(category: string): string
  {
    if Includes(category, "Ghost") then "linear-gradient(135deg, #667eea 0%, #764ba2 100%)"
    else if Includes(category, "AI") then "linear-gradient(135deg, #f093fb 0%, #f5576c 100%)"
    else if Includes(category, "Over/Under") then "linear-gradient(135deg, #4facfe 0%, #00f2fe 100%)"
    else if Includes(category, "CFX") then "linear-gradient(135deg, #43e97b 0%, #38f9d7 100%)"
    else if Includes(category, "Auto") then "linear-gradient(135deg, #fa709a 0%, #fee140 100%)"
    else if Includes(category, "D6") then "linear-gradient(135deg, #a8edea 0%, #fed6e3 100%)"
    else "linear-gradient(135deg, #ffecd2 0%, #fcb69f 100%)"
  }

  /** The substrings both functions test, in their order. */
  const IconKeywords: seq<string> := ["Ghost", "AI", "Over/Under", "CFX", "Auto", "D6"]
  const Icons: seq<Icon> := [GhostIcon, RobotIcon, TargetIcon, LightningIcon, CycleIcon, DiceIcon, WrenchIcon]
  const Gradients: seq<string> := [
    "linear-gradient(135deg, #667eea 0%, #764ba2 100%)",
    "linear-gradient(135deg, #f093fb 0%, #f5576c 100%)",
    "linear-gradient(135deg, #4facfe 0%, #00f2fe 100%)",
    "linear-gradient(135deg, #43e97b 0%, #38f9d7 100%)",
    "linear-gradient(135deg, #fa709a 0%, #fee140 100%)",
    "linear-gradient(135deg, #a8edea 0%, #fed6e3 100%)",
    "linear-gradient(135deg, #ffecd2 0%, #fcb69f 100%)"
  ]

  /** Which branch a label takes: the first keyword it contains, 6 for the default. */
  function IconBranch(category: string): (k: nat)
    ensures k <= 6
    ensures k < 6 ==> Includes(category, IconKeywords[k])
    ensures forall j :: 0 <= j < k && j < 6 ==> !Includes(category, IconKeywords[j])
  {
    if Includes(category, "Ghost") then 0
    else if Includes(category, "AI") then 1
    else if Includes(category, "Over/Under") then 2
    else if Includes(category, "CFX") then 3
    else if Includes(category, "Auto") then 4
    else if Includes(category, "D6") then 5
    else 6
  }

  /** For every label, icon and gradient come from the same branch. */
  lemma IconAndGradientAgree(category: string)
    ensures GetBotIcon(category) == Icons[IconBranch(category)]
    ensures GetBotIconGradient(category) == Gradients[IconBranch(category)]
  {
  }

  // ---------------------------------------------------------------------
  // Titles
  // ---------------------------------------------------------------------

  /** `file.split('/').pop() || file`: the last path segment, or the whole path when that is empty. */
  function LastSegment(file: string): (r: string)
    ensures AfterLast(file, '/') != [] ==> r == AfterLast(file, '/')
    ensures AfterLast(file, '/') == [] ==> r == file
    ensures r == file || (r != [] && |r| < |file| && r == file[|file| - |r|..] &&
                          '/' !in r && file[|file| - |r| - 1] == '/')
    ensures '/' !in file ==> r == file
  {
    var piece := AfterLast(file, '/');
    if piece == [] then file
    else
      assert |piece| == |file| ==> piece == file;
      piece
  }

  /** `.replace('.xml', '').replace(/\([^)]*\)/g, '').trim()`. */
  function CleanTitle(fileName: string): string
  {
    Trim(StripParenGroups(ReplaceFirst(fileName, ".xml", "")))
  }

  /** A stretch of a string without a group has none. */
  lemma NoGroupSlice(s: string, i: nat, j: nat)
    requires NoGroup(s) && i <= j <= |s|
    ensures NoGroup(s[i..j])
  {
    var t := s[i..j];
    forall a, b | 0 <= a < b < |t| && t[a] == '(' ensures t[b] != ')' {
      assert s[i + a] == '(' && t[b] == s[i + b];
    }
  }

  /** A clean title has no parenthesised group left and no space at either end. */
  lemma CleanTitleMeaning(fileName: string)
    ensures var t := CleanTitle(fileName);
      NoGroup(t) && (t == [] || (!IsJsSpace(t[0]) && !IsJsSpace(t[|t| - 1])))
  {
    var stripped := StripParenGroups(ReplaceFirst(fileName, ".xml", ""));
    StripParenGroupsMeaning(ReplaceFirst(fileName, ".xml", ""));
    TrimMeaning(stripped);
    var i, j :| 0 <= i <= j <= |stripped| && Trim(stripped) == stripped[i..j];
    NoGroupSlice(stripped, i, j);
  }

  /**
   * In a name that holds no ".xml" of its own, the first ".xml" of the name
   * with its extension is that extension, and replacing it removes exactly it.
   */
  lemma XmlExtensionRemoved(name: string)
    requires !Includes(name, ".xml")
    ensures IndexOf(name + ".xml", ".xml") == Some(|name|)
    ensures ReplaceFirst(name + ".xml", ".xml", "") == name
  {
    var s := name + ".xml";
    assert s[|name|..|name| + 4] == ".xml";
    forall j: nat | j < |name| ensures !OccursAt(s, ".xml", j) {
      if j + 4 <= |name| {
        assert s[j..j + 4] == name[j..j + 4];
        assert !OccursAt(name, ".xml", j);
      } else {
        var d := |name| - j;
        assert s[j..j + 4][d] == s[|name|] == '.';
        assert ".xml"[d] != '.';
      }
    }
    assert OccursAt(s, ".xml", |name|);
    var r := IndexFrom(s, ".xml", 0);
    assert r.Some? && !(r.value < |name|) && !(r.value > |name|);
    assert s[..|name|] == name;
  }

  /** A name without a '.' holds no ".xml". */
  lemma WithoutDotNoXml(name: string)
    requires '.' !in name
    ensures !Includes(name, ".xml")
  {
    forall k: nat ensures !OccursAt(name, ".xml", k) {
      if k + 4 <= |name| {
        assert name[k..k + 4][0] == name[k];
      }
    }
    IncludesIff(name, ".xml");
  }

  /** A file name is its name plus ".xml": cleaning drops the extension and cleans the name. */
  lemma CleanTitleOfXml(name: string)
    requires !Includes(name, ".xml")
    ensures CleanTitle(name + ".xml") == Trim(StripParenGroups(name))
  {
    XmlExtensionRemoved(name);
  }

  /** A name with no ".xml" and no ')' is only trimmed, with or without its ".xml" extension. */
  lemma CleanTitleOnlyTrims(name: string)
    requires !Includes(name, ".xml") && ')' !in name
    ensures CleanTitle(name) == Trim(name)
    ensures CleanTitle(name + ".xml") == Trim(name)
  {
    ReplaceFirstMeaning(name, ".xml", "");
    StripParenGroupsMeaning(name);
    CleanTitleOfXml(name);
  }

  /**
   * A parenthesised group is dropped from the title with its parentheses,
   * and the text before it is kept, then trimmed with the rest; the same
   * holds for the name with its ".xml" extension.
   */
  lemma CleanTitleDropsGroup(a: string, m: string, b: string)
    requires '(' !in a && ')' !in m && !Includes(a + "(" + m + ")" + b, ".xml")
    ensures CleanTitle(a + "(" + m + ")" + b) == Trim(a + StripParenGroups(b))
    ensures CleanTitle(a + "(" + m + ")" + b + ".xml") == Trim(a + StripParenGroups(b))
  {
    ReplaceFirstMeaning(a + "(" + m + ")" + b, ".xml", "");
    StripParenGroupsDropsGroup(a, m, b);
    CleanTitleOfXml(a + "(" + m + ")" + b);
  }

  // ---------------------------------------------------------------------
  // The catalog
  // ---------------------------------------------------------------------

  /** The fields of a loaded bot the model keeps (the image and the XML text come from the fetch). */
  datatype Bot = Bot(title: string, fileName: string, description: string, filePath: string, category: string)

  /** The bot record built for one file. */
  function MakeBot(file: string): Bot
  {
    var fileName := LastSegment(file);
    var title := CleanTitle(fileName);
    Bot(title, fileName, GetBotDescription(title), file, CategoryLabel(CategorizeBotByName(title)))
  }

  /**
   * The record for a file keeps its path; the file name is its last segment
   * (with a '/' only when it fell back to the whole path); the title is that
   * name cleaned; description and category are those of the title.
   */
  lemma MakeBotMeaning(file: string)
    ensures var b := MakeBot(file);
      b.filePath == file && b.fileName == LastSegment(file) && b.title == CleanTitle(b.fileName) &&
      ('/' in b.fileName ==> b.fileName == file) &&
      NoGroup(b.title) && (b.title == [] || (!IsJsSpace(b.title[0]) && !IsJsSpace(b.title[|b.title| - 1]))) &&
      b.description == GetBotDescription(b.title) &&
      b.category == CategoryLabel(CategorizeBotByName(b.title))
  {
    CleanTitleMeaning(LastSegment(file));
  }

  /** `Promise.all(botFiles.map(...))`: a bot for each file whose fetch succeeded, null for the others. */
  function LoadResults(files: seq<string>, loaded: seq<bool>): (results: seq<Option<Bot>>)
    requires |loaded| == |files|
    ensures |results| == |files|
    ensures forall i :: 0 <= i < |files| ==> (results[i].Some? <==> loaded[i])
    ensures forall i :: 0 <= i < |files| && loaded[i] ==> results[i].value == MakeBot(files[i])
  {
    seq(|files|, i requires 0 <= i < |files| => if loaded[i] then Some(MakeBot(files[i])) else None)
  }

  /** `.filter(Boolean)`: the values present, in order. */
  function Present<T>(results: seq<Option<T>>): (r: seq<T>)
    ensures |r| <= |results|
  {
    if results == [] then []
    else Present(results[..|results| - 1]) +
         (match results[|results| - 1] case Some(x) => [x] case None => [])
  }

  /** The filter keeps exactly the values present, and drops nothing when every value is present. */
  lemma {:induction false} PresentContents<T>(results: seq<Option<T>>)
    ensures forall x :: x in Present(results) <==> Some(x) in results
    ensures (forall i :: 0 <= i < |results| ==> results[i].Some?) ==> |Present(results)| == |results|
  {
    if results != [] {
      var init := results[..|results| - 1];
      PresentContents(init);
      assert results == init + [results[|results| - 1]];
      assert forall i :: 0 <= i < |init| ==> init[i] == results[i];
    }
  }

  /** The filter keeps one value per index holding one. */
  lemma {:induction false} PresentCount<T>(results: seq<Option<T>>)
    ensures |Present(results)| == |set i | 0 <= i < |results| && results[i].Some?|
  {
    if results != [] {
      var n := |results| - 1;
      var init := results[..n];
      PresentCount(init);
      var before := set i | 0 <= i < n && init[i].Some?;
      var all := set i | 0 <= i < |results| && results[i].Some?;
      if results[n].Some? {
        assert all == before + {n};
        assert n !in before;
      } else {
        assert all == before;
      }
    }
  }

  /** So the filter keeps one value per flag that is set, when the flags say which values are present. */
  lemma PresentCountOf<T>(results: seq<Option<T>>, flags: seq<bool>)
    requires |results| == |flags| && forall i :: 0 <= i < |results| ==> (results[i].Some? <==> flags[i])
    ensures |Present(results)| == |set i | 0 <= i < |flags| && flags[i]|
  {
    PresentCount(results);
    assert (set i | 0 <= i < |results| && results[i].Some?) == (set i | 0 <= i < |flags| && flags[i]);
  }

  /** The bots of the files that loaded, in file order. */
  function LoadedBots(files: seq<string>, loaded: seq<bool>): seq<Bot>
    requires |loaded| == |files|
  {
    Present(LoadResults(files, loaded))
  }

  /** localeCompare as an abstract order: irreflexive and transitive. */
  ghost predicate StrictOrder<T(!new)>(less: (T, T) -> bool)
  {
    (forall x :: !less(x, x)) &&
    (forall x, y, z :: less(x, y) && less(y, z) ==> less(x, z))
  }

  /** No element is listed after one it sorts before. */
  predicate SortedBy<T>(less: (T, T) -> bool, s: seq<T>)
  {
    forall i, j :: 0 <= i < j < |s| ==> !less(s[j], s[i])
  }

  /** Insert x before the first element it sorts strictly before, after every one it does not. */
  function InsertBy<T>(less: (T, T) -> bool, x: T, sorted: seq<T>): (r: seq<T>)
    ensures |r| == |sorted| + 1
  {
    if sorted == [] then [x]
    else if less(x, sorted[0]) then [x] + sorted
    else [sorted[0]] + InsertBy(less, x, sorted[1..])
  }

  /** The sort, as an insertion sort. */
  function SortBy<T>(less: (T, T) -> bool, s: seq<T>): (r: seq<T>)
    ensures |r| == |s|
  {
    if s == [] then []
    else InsertBy(less, s[|s| - 1], SortBy(less, s[..|s| - 1]))
  }

  lemma {:induction false} InsertByPermutes<T>(less: (T, T) -> bool, x: T, sorted: seq<T>)
    ensures multiset(InsertBy(less, x, sorted)) == multiset(sorted) + multiset{x}
  {
    if sorted != [] && !less(x, sorted[0]) {
      InsertByPermutes(less, x, sorted[1..]);
      assert sorted == [sorted[0]] + sorted[1..];
    }
  }

  /** Nothing in a sorted list after its head sorts before the head. */
  lemma HeadFirst<T>(less: (T, T) -> bool, sorted: seq<T>, y: T)
    requires SortedBy(less, sorted) && sorted != [] && y in sorted[1..]
    ensures !less(y, sorted[0])
  {
    var k :| 0 <= k < |sorted[1..]| && sorted[1..][k] == y;
    assert sorted[k + 1] == y;
  }

  /** A sorted list stays sorted with a head that nothing in it sorts before. */
  lemma SortedCons<T>(less: (T, T) -> bool, h: T, tail: seq<T>)
    requires SortedBy(less, tail) && forall y :: y in tail ==> !less(y, h)
    ensures SortedBy(less, [h] + tail)
  {
    var r := [h] + tail;
    forall i, j | 0 <= i < j < |r| ensures !less(r[j], r[i]) {
      assert r[j] == tail[j - 1] && r[j] in tail;
      if i > 0 {
        assert r[i] == tail[i - 1];
      }
    }
  }

  /** The tail of a sorted list is sorted. */
  lemma SortedTail<T>(less: (T, T) -> bool, sorted: seq<T>)
    requires SortedBy(less, sorted) && sorted != []
    ensures SortedBy(less, sorted[1..])
  {
    var tail := sorted[1..];
    forall i, j | 0 <= i < j < |tail| ensures !less(tail[j], tail[i]) {
      assert tail[i] == sorted[i + 1] && tail[j] == sorted[j + 1];
    }
  }

  lemma {:induction false} InsertBySorted<T(!new)>(less: (T, T) -> bool, x: T, sorted: seq<T>)
    requires StrictOrder(less) && SortedBy(less, sorted)
    ensures SortedBy(less, InsertBy(less, x, sorted))
  {
    if sorted != [] {
      var tail := sorted[1..];
      SortedTail(less, sorted);
      if less(x, sorted[0]) {
        // x goes first: an element sorting before x would sort before the head.
        forall y | y in sorted ensures !less(y, x) {
          if y != sorted[0] {
            assert y in tail by { assert sorted == [sorted[0]] + tail; }
            HeadFirst(less, sorted, y);
          }
        }
        SortedCons(less, x, sorted);
      } else {
        // The head stays first: x and the rest of the list do not sort before it.
        var rest := InsertBy(less, x, tail);
        InsertBySorted(less, x, tail);
        InsertByPermutes(less, x, tail);
        forall y | y in rest ensures !less(y, sorted[0]) {
          assert y in multiset(rest);
          if y != x {
            assert y in multiset(tail);
            HeadFirst(less, sorted, y);
          }
        }
        SortedCons(less, sorted[0], rest);
      }
    }
  }

  /** The sort yields a permutation of its input, sorted. */
  lemma {:induction false} SortByMeaning<T(!new)>(less: (T, T) -> bool, s: seq<T>)
    requires StrictOrder(less)
    ensures multiset(SortBy(less, s)) == multiset(s)
    ensures SortedBy(less, SortBy(less, s))
  {
    if s != [] {
      var init := s[..|s| - 1];
      SortByMeaning(less, init);
      InsertByPermutes(less, s[|s| - 1], SortBy(less, init));
      InsertBySorted(less, s[|s| - 1], SortBy(less, init));
      assert s == init + [s[|s| - 1]];
    }
  }

  /** The comparator: by category, then by title within a category. */
  function BotLess(less: (string, string) -> bool, a: Bot, b: Bot): bool
  {
    if a.category != b.category then less(a.category, b.category) else less(a.title, b.title)
  }

  /** The comparator as a function value, for the sort. */
  function BotOrder(less: (string, string) -> bool): (lt: (Bot, Bot) -> bool)
    ensures forall a, b :: lt(a, b) == BotLess(less, a, b)
  {
    (a: Bot, b: Bot) => BotLess(less, a, b)
  }

  /** The comparator is a strict order whenever localeCompare is. */
  lemma BotOrderIsStrict(less: (string, string) -> bool)
    requires StrictOrder(less)
    ensures StrictOrder(BotOrder(less))
  {
  }

  /** `loadedBots.sort(...)`, modelled as the insertion sort by the comparator. */
  function SortBots(less: (string, string) -> bool, bots: seq<Bot>): seq<Bot>
  {
    SortBy(BotOrder(less), bots)
  }

  /**
   * The sorted list is a permutation of its input, ordered by category
   * and, among bots of one category, by title.
   */
  lemma SortBotsOrder(less: (string, string) -> bool, bots: seq<Bot>)
    requires StrictOrder(less)
    ensures var c := SortBots(less, bots);
      multiset(c) == multiset(bots) &&
      (forall i, j :: 0 <= i < j < |c| ==>
        !less(c[j].category, c[i].category) &&
        (c[i].category == c[j].category ==> !less(c[j].title, c[i].title)))
  {
    var c := SortBots(less, bots);
    BotOrderIsStrict(less);
    SortByMeaning(BotOrder(less), bots);
    forall i, j | 0 <= i < j < |c|
      ensures !less(c[j].category, c[i].category) &&
        (c[i].category == c[j].category ==> !less(c[j].title, c[i].title))
    {
      assert !BotOrder(less)(c[j], c[i]);
    }
  }

  /** The bots of s in one category with one title, in their order in s. */
  function Tied(s: seq<Bot>, category: string, title: string): seq<Bot>
  {
    if s == [] then []
    else (if s[0].category == category && s[0].title == title then [s[0]] else []) + Tied(s[1..], category, title)
  }

  lemma {:induction false} TiedAppend(a: seq<Bot>, b: seq<Bot>, category: string, title: string)
    ensures Tied(a + b, category, title) == Tied(a, category, title) + Tied(b, category, title)
  {
    if a == [] {
      assert a + b == b;
    } else {
      assert (a + b)[1..] == a[1..] + b;
      TiedAppend(a[1..], b, category, title);
    }
  }

  lemma {:induction false} TiedEmpty(s: seq<Bot>, category: string, title: string)
    requires forall i :: 0 <= i < |s| ==> !(s[i].category == category && s[i].title == title)
    ensures Tied(s, category, title) == []
  {
    if s != [] {
      TiedEmpty(s[1..], category, title);
    }
  }

  /** A bot sorting before the head of a sorted list ties with none of its bots: they would sort before the head too. */
  lemma NoneTiedBeforeHead(less: (string, string) -> bool, x: Bot, sorted: seq<Bot>)
    requires StrictOrder(less) && SortedBy(BotOrder(less), sorted) && sorted != [] && BotLess(less, x, sorted[0])
    ensures forall i :: 0 <= i < |sorted| ==> !(sorted[i].category == x.category && sorted[i].title == x.title)
  {
    forall i | 0 <= i < |sorted| ensures !(sorted[i].category == x.category && sorted[i].title == x.title) {
      if i > 0 {
        assert !BotOrder(less)(sorted[i], sorted[0]);
      }
    }
  }

  /** Put in front of the list, x still comes after every bot it ties with, for there is none. */
  lemma FrontTied(less: (string, string) -> bool, x: Bot, sorted: seq<Bot>, category: string, title: string)
    requires StrictOrder(less) && SortedBy(BotOrder(less), sorted) && sorted != [] && BotLess(less, x, sorted[0])
    ensures Tied([x] + sorted, category, title) == Tied(sorted, category, title) + Tied([x], category, title)
  {
    TiedAppend([x], sorted, category, title);
    if x.category == category && x.title == title {
      NoneTiedBeforeHead(less, x, sorted);
      TiedEmpty(sorted, category, title);
    }
  }

  /**
   * Inserting into a sorted list puts the new bot after every bot it ties
   * with, and leaves the order of every other group of tied bots alone.
   */
  lemma {:induction false} InsertByTied(less: (string, string) -> bool, x: Bot, sorted: seq<Bot>, category: string, title: string)
    requires StrictOrder(less) && SortedBy(BotOrder(less), sorted)
    ensures Tied(InsertBy(BotOrder(less), x, sorted), category, title) ==
      Tied(sorted, category, title) + Tied([x], category, title)
  {
    var lt := BotOrder(less);
    if sorted == [] {
      assert InsertBy(lt, x, sorted) == [x];
    } else if lt(x, sorted[0]) {
      assert InsertBy(lt, x, sorted) == [x] + sorted;
      FrontTied(less, x, sorted, category, title);
    } else {
      var tail := sorted[1..];
      SortedTail(lt, sorted);
      InsertByTied(less, x, tail, category, title);
      assert InsertBy(lt, x, sorted) == [sorted[0]] + InsertBy(lt, x, tail);
      TiedAppend([sorted[0]], InsertBy(lt, x, tail), category, title);
      assert sorted == [sorted[0]] + tail;
      TiedAppend([sorted[0]], tail, category, title);
    }
  }

  /**
   * The sort is stable: bots with the same category and the same title,
   * which the comparator ties, keep the order they had in the input.
   */
  lemma {:induction false} SortBotsStable(less: (string, string) -> bool, bots: seq<Bot>, category: string, title: string)
    requires StrictOrder(less)
    ensures Tied(SortBots(less, bots), category, title) == Tied(bots, category, title)
  {
    if bots != [] {
      var init := bots[..|bots| - 1];
      var last := bots[|bots| - 1];
      SortBotsStable(less, init, category, title);
      BotOrderIsStrict(less);
      SortByMeaning(BotOrder(less), init);
      InsertByTied(less, last, SortBy(BotOrder(less), init), category, title);
      assert bots == init + [last];
      TiedAppend(init, [last], category, title);
    }
  }

  /**
   * Sorting what the filter kept holds exactly the values present, and
   * drops nothing when every value is present.
   */
  lemma SortPresent<T(!new)>(lt: (T, T) -> bool, results: seq<Option<T>>)
    requires StrictOrder(lt)
    ensures forall x :: x in SortBy(lt, Present(results)) <==> Some(x) in results
    ensures (forall i :: 0 <= i < |results| ==> results[i].Some?) ==> |SortBy(lt, Present(results))| == |results|
  {
    var kept := Present(results);
    SortByMeaning(lt, kept);
    PresentContents(results);
    forall x ensures x in SortBy(lt, kept) <==> x in kept {
      assert x in SortBy(lt, kept) <==> x in multiset(SortBy(lt, kept));
      assert x in kept <==> x in multiset(kept);
    }
  }

  /** The catalog the page lists: the bots of the files that loaded, sorted. */
  function Catalog(less: (string, string) -> bool, files: seq<string>, loaded: seq<bool>): (c: seq<Bot>)
    requires |loaded| == |files|
    ensures |c| == |LoadedBots(files, loaded)|
  {
    SortBots(less, LoadedBots(files, loaded))
  }

  /**
   * The catalog holds exactly the bots of the files that loaded; when every
   * file loaded it holds one bot per file.
   */
  lemma CatalogContents(less: (string, string) -> bool, files: seq<string>, loaded: seq<bool>)
    requires |loaded| == |files| && StrictOrder(less)
    ensures forall b :: b in Catalog(less, files, loaded) <==> Some(b) in LoadResults(files, loaded)
    ensures (forall i :: 0 <= i < |files| ==> loaded[i]) ==> |Catalog(less, files, loaded)| == |files|
  {
    BotOrderIsStrict(less);
    SortPresent(BotOrder(less), LoadResults(files, loaded));
  }

  /** The catalog lists one bot per file that loaded. */
  lemma CatalogSize(less: (string, string) -> bool, files: seq<string>, loaded: seq<bool>)
    requires |loaded| == |files|
    ensures |Catalog(less, files, loaded)| == |set i | 0 <= i < |files| && loaded[i]|
  {
    PresentCountOf(LoadResults(files, loaded), loaded);
  }
}
