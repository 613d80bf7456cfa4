/** The settings page: a nested record of user preferences with their
    defaults, the page state that edits it (the record and an
    "unsaved changes" flag), and the values the page derives from it. */
module AppSettings {
  import opened Wrappers

  datatype ThemeMode = Light | Dark | System
  datatype LengthPref = Concise | Balanced | Detailed
  datatype Difficulty = Beginner | Intermediate | Advanced
  datatype Detail = Basic | Standard | Comprehensive

  datatype Appearance = Appearance(theme: ThemeMode, fontSize: int, reducedMotion: bool, highContrast: bool)
  datatype AiPreferences = AiPreferences(
    responseLength: LengthPref, creativity: int, formatCode: bool, includeSources: bool, defaultModel: string)
  datatype SocraticPrefs = SocraticPrefs(questionDifficulty: Difficulty, includeAnalysis: bool, questionsPerTopic: int)
  datatype KnowledgePrefs = KnowledgePrefs(autoSuggestConnections: bool, includeVisualElements: bool, detailLevel: Detail)
  datatype Accessibility = Accessibility(screenReader: bool, largeText: bool, keyboardNavigation: bool)
  datatype Notifications = Notifications(enabled: bool, sound: bool, desktop: bool, studyReminders: bool)

  datatype Settings = Settings(
    appearance: Appearance,
    aiPreferences: AiPreferences,
    socraticMode: SocraticPrefs,
    knowledgeBuilder: KnowledgePrefs,
    accessibility: Accessibility,
    notifications: Notifications)

  /** The values a fresh installation starts with. */
  const DefaultSettings: Settings := Settings(
    Appearance(System, 16, false, false),
    AiPreferences(Balanced, 50, true, true, "llama3.2:3b"),
    SocraticPrefs(Intermediate, true, 5),
    KnowledgePrefs(true, true, Standard),
    Accessibility(false, false, true),
    Notifications(true, true, false, false))

  /** A setting, named by its category and key; the category is implied. */
  datatype Field =
    | Theme | FontSize | ReducedMotion | HighContrast
    | ResponseLength | Creativity | FormatCode | IncludeSources | DefaultModel
    | QuestionDifficulty | IncludeAnalysis | QuestionsPerTopic
    | AutoSuggestConnections | IncludeVisualElements | DetailLevel
    | ScreenReader | LargeText | KeyboardNavigation
    | Enabled | Sound | Desktop | StudyReminders

  /** The value of one setting. */
  datatype Value =
    | BoolValue(b: bool)
    | NumberValue(n: int)
    | TextValue(t: string)
    | ThemeValue(theme: ThemeMode)
    | LengthValue(length: LengthPref)
    | DifficultyValue(difficulty: Difficulty)
    | DetailValue(detail: Detail)

  /** A value of the setting's declared type. */
  predicate Fits(f: Field, v: Value) {
    match f
    case Theme => v.ThemeValue?
    case FontSize | Creativity | QuestionsPerTopic => v.NumberValue?
    case DefaultModel => v.TextValue?
    case ResponseLength => v.LengthValue?
    case QuestionDifficulty => v.DifficultyValue?
    case DetailLevel => v.DetailValue?
    case _ => v.BoolValue?
  }

  /** The value a setting holds, always of the setting's declared type. */
  function Get(s: Settings, f: Field): (v: Value)
    ensures Fits(f, v)
  {
    match f
    case Theme => ThemeValue(s.appearance.theme)
    case FontSize => NumberValue(s.appearance.fontSize)
    case ReducedMotion => BoolValue(s.appearance.reducedMotion)
    case HighContrast => BoolValue(s.appearance.highContrast)
    case ResponseLength => LengthValue(s.aiPreferences.responseLength)
    case Creativity => NumberValue(s.aiPreferences.creativity)
    case FormatCode => BoolValue(s.aiPreferences.formatCode)
    case IncludeSources => BoolValue(s.aiPreferences.includeSources)
    case DefaultModel => TextValue(s.aiPreferences.defaultModel)
    case QuestionDifficulty => DifficultyValue(s.socraticMode.questionDifficulty)
    case IncludeAnalysis => BoolValue(s.socraticMode.includeAnalysis)
    case QuestionsPerTopic => NumberValue(s.socraticMode.questionsPerTopic)
    case AutoSuggestConnections => BoolValue(s.knowledgeBuilder.autoSuggestConnections)
    case IncludeVisualElements => BoolValue(s.knowledgeBuilder.includeVisualElements)
    case DetailLevel => DetailValue(s.knowledgeBuilder.detailLevel)
    case ScreenReader => BoolValue(s.accessibility.screenReader)
    case LargeText => BoolValue(s.accessibility.largeText)
    case KeyboardNavigation => BoolValue(s.accessibility.keyboardNavigation)
    case Enabled => BoolValue(s.notifications.enabled)
    case Sound => BoolValue(s.notifications.sound)
    case Desktop => BoolValue(s.notifications.desktop)
    case StudyReminders => BoolValue(s.notifications.studyReminders)
  }

  /** The record with one setting replaced: a new category record holding
      the new value in place of the old one. */
  function Set(s: Settings, f: Field, v: Value): Settings
    requires Fits(f, v)
  {
    match f
    case Theme => s.(appearance := s.appearance.(theme := v.theme))
    case FontSize => s.(appearance := s.appearance.(fontSize := v.n))
    case ReducedMotion => s.(appearance := s.appearance.(reducedMotion := v.b))
    case HighContrast => s.(appearance := s.appearance.(highContrast := v.b))
    case ResponseLength => s.(aiPreferences := s.aiPreferences.(responseLength := v.length))
    case Creativity => s.(aiPreferences := s.aiPreferences.(creativity := v.n))
    case FormatCode => s.(aiPreferences := s.aiPreferences.(formatCode := v.b))
    case IncludeSources => s.(aiPreferences := s.aiPreferences.(includeSources := v.b))
    case DefaultModel => s.(aiPreferences := s.aiPreferences.(defaultModel := v.t))
    case QuestionDifficulty => s.(socraticMode := s.socraticMode.(questionDifficulty := v.difficulty))
    case IncludeAnalysis => s.(socraticMode := s.socraticMode.(includeAnalysis := v.b))
    case QuestionsPerTopic => s.(socraticMode := s.socraticMode.(questionsPerTopic := v.n))
    case AutoSuggestConnections => s.(knowledgeBuilder := s.knowledgeBuilder.(autoSuggestConnections := v.b))
    case IncludeVisualElements => s.(knowledgeBuilder := s.knowledgeBuilder.(includeVisualElements := v.b))
    case DetailLevel => s.(knowledgeBuilder := s.knowledgeBuilder.(detailLevel := v.detail))
    case ScreenReader => s.(accessibility := s.accessibility.(screenReader := v.b))
    case LargeText => s.(accessibility := s.accessibility.(largeText := v.b))
    case KeyboardNavigation => s.(accessibility := s.accessibility.(keyboardNavigation := v.b))
    case Enabled => s.(notifications := s.notifications.(enabled := v.b))
    case Sound => s.(notifications := s.notifications.(sound := v.b))
    case Desktop => s.(notifications := s.notifications.(desktop := v.b))
    case StudyReminders => s.(notifications := s.notifications.(studyReminders := v.b))
  }

  /** The replaced setting reads back the new value. */
  lemma SetGet(s: Settings, f: Field, v: Value)
    requires Fits(f, v)
    ensures Get(Set(s, f, v), f) == v
  {
  }

  /** Every other setting keeps its value. */
  lemma SetKeepsOthers(s: Settings, f: Field, v: Value, g: Field)
    requires Fits(f, v) && g != f
    ensures Get(Set(s, f, v), g) == Get(s, g)
  {
    if f.Theme? || f.FontSize? || f.ReducedMotion? || f.HighContrast? {
      KeepsOthersAppearance(s, f, v, g);
    } else if f.ResponseLength? || f.Creativity? || f.FormatCode? || f.IncludeSources? || f.DefaultModel? {
      KeepsOthersAiPreferences(s, f, v, g);
    } else if f.QuestionDifficulty? || f.IncludeAnalysis? || f.QuestionsPerTopic? {
      KeepsOthersSocratic(s, f, v, g);
    } else if f.AutoSuggestConnections? || f.IncludeVisualElements? || f.DetailLevel? {
      KeepsOthersKnowledge(s, f, v, g);
    } else if f.ScreenReader? || f.LargeText? || f.KeyboardNavigation? {
      KeepsOthersAccessibility(s, f, v, g);
    } else {
      KeepsOthersNotifications(s, f, v, g);
    }
  }

  lemma KeepsOthersAppearance(s: Settings, f: Field, v: Value, g: Field)
    requires Fits(f, v) && g != f
    requires f.Theme? || f.FontSize? || f.ReducedMotion? || f.HighContrast?
    ensures Get(Set(s, f, v), g) == Get(s, g)
  {
  }

  lemma KeepsOthersAiPreferences(s: Settings, f: Field, v: Value, g: Field)
    requires Fits(f, v) && g != f
    requires f.ResponseLength? || f.Creativity? || f.FormatCode? || f.IncludeSources? || f.DefaultModel?
    ensures Get(Set(s, f, v), g) == Get(s, g)
  {
  }

  lemma KeepsOthersSocratic(s: Settings, f: Field, v: Value, g: Field)
    requires Fits(f, v) && g != f
    requires f.QuestionDifficulty? || f.IncludeAnalysis? || f.QuestionsPerTopic?
    ensures Get(Set(s, f, v), g) == Get(s, g)
  {
  }

  lemma KeepsOthersKnowledge(s: Settings, f: Field, v: Value, g: Field)
    requires Fits(f, v) && g != f
    requires f.AutoSuggestConnections? || f.IncludeVisualElements? || f.DetailLevel?
    ensures Get(Set(s, f, v), g) == Get(s, g)
  {
  }

  lemma KeepsOthersAccessibility(s: Settings, f: Field, v: Value, g: Field)
    requires Fits(f, v) && g != f
    requires f.ScreenReader? || f.LargeText? || f.KeyboardNavigation?
    ensures Get(Set(s, f, v), g) == Get(s, g)
  {
  }

  lemma KeepsOthersNotifications(s: Settings, f: Field, v: Value, g: Field)
    requires Fits(f, v) && g != f
    requires f.Enabled? || f.Sound? || f.Desktop? || f.StudyReminders?
    ensures Get(Set(s, f, v), g) == Get(s, g)
  {
  }

  /** Two records whose settings all hold the same values are equal, so the
      two lemmas above determine the replaced record completely. */
  lemma SameValuesSameSettings(a: Settings, b: Settings)
    requires forall f: Field :: Get(a, f) == Get(b, f)
    ensures a == b
  {
    SameAppearance(a, b);
    SameAiPreferences(a, b);
    SameSocratic(a, b);
    SameKnowledge(a, b);
    SameAccessibility(a, b);
    SameNotifications(a, b);
  }

  lemma SameAppearance(a: Settings, b: Settings)
    requires Get(a, Theme) == Get(b, Theme) && Get(a, FontSize) == Get(b, FontSize)
    requires Get(a, ReducedMotion) == Get(b, ReducedMotion) && Get(a, HighContrast) == Get(b, HighContrast)
    ensures a.appearance == b.appearance
  {
  }

  lemma SameAiPreferences(a: Settings, b: Settings)
    requires Get(a, ResponseLength) == Get(b, ResponseLength) && Get(a, Creativity) == Get(b, Creativity)
    requires Get(a, FormatCode) == Get(b, FormatCode) && Get(a, IncludeSources) == Get(b, IncludeSources)
    requires Get(a, DefaultModel) == Get(b, DefaultModel)
    ensures a.aiPreferences == b.aiPreferences
  {
  }

  lemma SameSocratic(a: Settings, b: Settings)
    requires Get(a, QuestionDifficulty) == Get(b, QuestionDifficulty)
    requires Get(a, IncludeAnalysis) == Get(b, IncludeAnalysis)
    requires Get(a, QuestionsPerTopic) == Get(b, QuestionsPerTopic)
    ensures a.socraticMode == b.socraticMode
  {
  }

  lemma SameKnowledge(a: Settings, b: Settings)
    requires Get(a, AutoSuggestConnections) == Get(b, AutoSuggestConnections)
    requires Get(a, IncludeVisualElements) == Get(b, IncludeVisualElements)
    requires Get(a, DetailLevel) == Get(b, DetailLevel)
    ensures a.knowledgeBuilder == b.knowledgeBuilder
  {
  }

  lemma SameAccessibility(a: Settings, b: Settings)
    requires Get(a, ScreenReader) == Get(b, ScreenReader) && Get(a, LargeText) == Get(b, LargeText)
    requires Get(a, KeyboardNavigation) == Get(b, KeyboardNavigation)
    ensures a.accessibility == b.accessibility
  {
  }

  lemma SameNotifications(a: Settings, b: Settings)
    requires Get(a, Enabled) == Get(b, Enabled) && Get(a, Sound) == Get(b, Sound)
    requires Get(a, Desktop) == Get(b, Desktop) && Get(a, StudyReminders) == Get(b, StudyReminders)
    ensures a.notifications == b.notifications
  {
  }

  /** Replacing a setting by the value it already holds changes nothing. */
  lemma SetSameValue(s: Settings, f: Field)
    ensures Set(s, f, Get(s, f)) == s
  {
    forall g: Field
      ensures Get(Set(s, f, Get(s, f)), g) == Get(s, g)
    {
      if g != f {
        SetKeepsOthers(s, f, Get(s, f), g);
      }
    }
    SameValuesSameSettings(Set(s, f, Get(s, f)), s);
  }

  /** The range of each slider, as (minimum, maximum). */
  function SliderRange(f: Field): (r: Option<(int, int)>)
    ensures r.Some? <==> f in {FontSize, Creativity, QuestionsPerTopic}
    ensures r.Some? ==> r.value.0 < r.value.1
  {
    match f
    case FontSize => Some((12, 24))
    case Creativity => Some((0, 100))
    case QuestionsPerTopic => Some((3, 15))
    case _ => None
  }

  /** A value a slider can produce for a setting (any value for a setting
      without a slider). */
  predicate WithinSlider(f: Field, v: Value) {
    SliderRange(f).Some? && v.NumberValue? ==>
      SliderRange(f).value.0 <= v.n <= SliderRange(f).value.1
  }

  /** Every slider's setting lies within the slider's range. */
  predicate InRange(s: Settings) {
    forall f: Field :: WithinSlider(f, Get(s, f))
  }

  /** The defaults lie within the sliders' ranges. */
  lemma DefaultsInRange()
    ensures InRange(DefaultSettings)
    ensures Get(DefaultSettings, FontSize) == NumberValue(16)
    ensures Get(DefaultSettings, Creativity) == NumberValue(50)
    ensures Get(DefaultSettings, QuestionsPerTopic) == NumberValue(5)
  {
  }

  /** A value from a slider keeps every setting within range. */
  lemma SetKeepsInRange(s: Settings, f: Field, v: Value)
    requires InRange(s) && Fits(f, v) && WithinSlider(f, v)
    ensures InRange(Set(s, f, v))
  {
    forall g: Field
      ensures WithinSlider(g, Get(Set(s, f, v), g))
    {
      if g == f {
        SetGet(s, f, v);
      } else {
        SetKeepsOthers(s, f, v, g);
      }
    }
  }

  /** The page's state: the stored record and whether it holds edits not
      yet confirmed with "save". */
  class SettingsPage {
    var settings: Settings
    var unsavedChanges: bool

    /** The page opens on the stored record, or on the defaults when
        nothing is stored, with no unsaved changes. */
    constructor(stored: Option<Settings>)
      ensures settings == stored.GetOr(DefaultSettings)
      ensures !unsavedChanges
    {
      settings := stored.GetOr(DefaultSettings);
      unsavedChanges := false;
    }

    /** Replace one setting and mark the record as edited. */
    method UpdateSetting(f: Field, v: Value)
      requires Fits(f, v)
      modifies this
      ensures settings == Set(old(settings), f, v)
      ensures Get(settings, f) == v
      ensures forall g: Field :: g != f ==> Get(settings, g) == Get(old(settings), g)
      ensures unsavedChanges
    {
      SetGet(settings, f, v);
      forall g: Field | g != f
        ensures Get(Set(settings, f, v), g) == Get(settings, g)
      {
        SetKeepsOthers(settings, f, v, g);
      }
      settings := Set(settings, f, v);
      unsavedChanges := true;
    }

    /** Restore the defaults if the user confirms; the edited flag is left
        as it was. */
    method ResetToDefaults(confirmed: bool)
      modifies this
      ensures settings == (if confirmed then DefaultSettings else old(settings))
      ensures unsavedChanges == old(unsavedChanges)
    {
      if confirmed {
        settings := DefaultSettings;
      }
    }

    /** Mark the record as saved; the record itself is already stored. */
    method SaveChanges()
      modifies this
      ensures settings == old(settings)
      ensures !unsavedChanges
    {
      unsavedChanges := false;
    }
  }

  /** The word shown beside the creativity slider. */
  function CreativityLabel(creativity: int): (word: string)
    ensures creativity < 33 ==> word == "Conservadora"
    ensures 33 <= creativity < 66 ==> word == "Equilibrada"
    ensures 66 <= creativity ==> word == "Criativa"
  {
    if creativity < 33 then "Conservadora"
    else if creativity < 66 then "Equilibrada"
    else "Criativa"
  }

  /** The three words are distinct, so the label tells which third of the
      slider the value lies in. */
  lemma CreativityLabelDistinguishes(a: int, b: int)
    ensures CreativityLabel(a) == CreativityLabel(b) <==>
      (a < 33 && b < 33) || (33 <= a < 66 && 33 <= b < 66) || (66 <= a && 66 <= b)
  {
    var c, e, k := "Conservadora", "Equilibrada", "Criativa";
    assert |c| == 12 && |e| == 11 && |k| == 8;
  }

  /** Whether the page is drawn dark: under the system theme it follows the
      operating system's preference, otherwise the chosen theme. */
  function EffectiveDark(theme: ThemeMode, systemPrefersDark: bool): (dark: bool)
    ensures theme == Dark ==> dark
    ensures theme == Light ==> !dark
    ensures theme == System ==> dark == systemPrefersDark
  {
    if theme == System then systemPrefersDark else theme == Dark
  }

  /** Only the system theme depends on the operating system's preference. */
  lemma PreferenceMattersOnlyUnderSystem(theme: ThemeMode)
    ensures (EffectiveDark(theme, true) != EffectiveDark(theme, false)) <==> theme == System
  {
  }

  /** How a switch is drawn. */
  datatype SwitchView = SwitchView(checked: bool, disabled: bool)

  /** The notification switches below the master switch: "sound" is always
      off and disabled; "desktop" and "study reminders" are disabled, and
      drawn off, while notifications are off. */
  function SoundSwitch(n: Notifications): (v: SwitchView)
    ensures !v.checked && v.disabled
  {
    SwitchView(false, true)
  }

  function DependentSwitch(n: Notifications, stored: bool): (v: SwitchView)
    ensures v.checked ==> n.enabled && stored
    ensures v.disabled <==> !n.enabled
    ensures n.enabled ==> v.checked == stored
  {
    SwitchView(stored && n.enabled, !n.enabled)
  }

  function DesktopSwitch(n: Notifications): SwitchView {
    DependentSwitch(n, n.desktop)
  }

  function RemindersSwitch(n: Notifications): SwitchView {
    DependentSwitch(n, n.studyReminders)
  }

  /** Turning notifications off and on again keeps the dependent choices:
      the switches show what they showed before. */
  lemma MasterSwitchRestores(s: Settings)
    requires s.notifications.enabled
    ensures var t := Set(Set(s, Enabled, BoolValue(false)), Enabled, BoolValue(true));
      t == s && DesktopSwitch(t.notifications) == DesktopSwitch(s.notifications)
    ensures var off := Set(s, Enabled, BoolValue(false));
      !DesktopSwitch(off.notifications).checked && !RemindersSwitch(off.notifications).checked
  {
  }
}
