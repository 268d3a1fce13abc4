/**
 * The settings store: theme, sound and notification flags, the minutes of
 * each timer preset and the active preset. Every operation is a record
 * update of the previous settings.
 */
module Settings {
  import opened Wrappers

  datatype Theme = Light | Dark | System

  datatype PresetType = PomodoroPreset | ShortBreakPreset | LongBreakPreset | CustomPreset

  /** Minutes per preset. */
  datatype Presets = Presets(pomodoro: int, shortBreak: int, longBreak: int, custom: int)
  {
    function Get(p: PresetType): int {
      match p
      case PomodoroPreset => pomodoro
      case ShortBreakPreset => shortBreak
      case LongBreakPreset => longBreak
      case CustomPreset => custom
    }

    /** `{ ...presets, [p]: minutes }`. */
    function Set(p: PresetType, minutes: int): (r: Presets)
      ensures r.Get(p) == minutes
      ensures forall q :: q != p ==> r.Get(q) == Get(q)
    {
      match p
      case PomodoroPreset => this.(pomodoro := minutes)
      case ShortBreakPreset => this.(shortBreak := minutes)
      case LongBreakPreset => this.(longBreak := minutes)
      case CustomPreset => this.(custom := minutes)
    }
  }

  datatype TimerSettings = TimerSettings(theme: Theme, soundEnabled: bool, notificationsEnabled: bool,
                                         timerPresets: Presets, activePreset: PresetType)

  const DefaultSettings: TimerSettings :=
    TimerSettings(Light, true, true, Presets(25, 5, 15, 30), PomodoroPreset)

  /** A `Partial<TimerSettings>`: each field present or absent. */
  datatype SettingsPatch = SettingsPatch(theme: Option<Theme>, soundEnabled: Option<bool>,
                                         notificationsEnabled: Option<bool>,
                                         timerPresets: Option<Presets>, activePreset: Option<PresetType>)

  /** `updateSettings`: `{ ...prev, ...patch }`, the preset record replaced as a whole. */
  function UpdateSettings(prev: TimerSettings, patch: SettingsPatch): TimerSettings {
    TimerSettings(patch.theme.GetOr(prev.theme),
                  patch.soundEnabled.GetOr(prev.soundEnabled),
                  patch.notificationsEnabled.GetOr(prev.notificationsEnabled),
                  patch.timerPresets.GetOr(prev.timerPresets),
                  patch.activePreset.GetOr(prev.activePreset))
  }

  function UpdateTimerPreset(prev: TimerSettings, preset: PresetType, minutes: int): TimerSettings {
    prev.(timerPresets := prev.timerPresets.Set(preset, minutes))
  }

  function SetActivePreset(prev: TimerSettings, preset: PresetType): TimerSettings {
    prev.(activePreset := preset)
  }

  /** The theme cycle light, dark, system, light. */
  function NextTheme(t: Theme): Theme {
    if t == Light then Dark else if t == Dark then System else Light
  }

  function ToggleTheme(prev: TimerSettings): TimerSettings {
    prev.(theme := NextTheme(prev.theme))
  }

  function ToggleSound(prev: TimerSettings): TimerSettings {
    prev.(soundEnabled := !prev.soundEnabled)
  }

  function ToggleNotifications(prev: TimerSettings): TimerSettings {
    prev.(notificationsEnabled := !prev.notificationsEnabled)
  }

  /** The defaults: light theme, sound and notifications on, presets 25/5/15/30 minutes, pomodoro active. */
  lemma DefaultSettingsValues()
    ensures DefaultSettings.theme == Light && DefaultSettings.soundEnabled && DefaultSettings.notificationsEnabled
    ensures DefaultSettings.timerPresets.Get(PomodoroPreset) == 25 && DefaultSettings.timerPresets.Get(ShortBreakPreset) == 5
    ensures DefaultSettings.timerPresets.Get(LongBreakPreset) == 15 && DefaultSettings.timerPresets.Get(CustomPreset) == 30
    ensures DefaultSettings.activePreset == PomodoroPreset
  {
  }

  /** Every field present in the patch is taken, every absent one kept. */
  lemma UpdateSettingsMerge(prev: TimerSettings, patch: SettingsPatch)
    ensures var r := UpdateSettings(prev, patch);
      (r.theme == if patch.theme.Some? then patch.theme.value else prev.theme) &&
      (r.soundEnabled == if patch.soundEnabled.Some? then patch.soundEnabled.value else prev.soundEnabled) &&
      (r.notificationsEnabled == if patch.notificationsEnabled.Some? then patch.notificationsEnabled.value else prev.notificationsEnabled) &&
      (r.timerPresets == if patch.timerPresets.Some? then patch.timerPresets.value else prev.timerPresets) &&
      (r.activePreset == if patch.activePreset.Some? then patch.activePreset.value else prev.activePreset)
  {
  }

  /** The empty patch changes nothing and a full patch replaces everything. */
  lemma UpdateSettingsExtremes(prev: TimerSettings, next: TimerSettings)
    ensures UpdateSettings(prev, SettingsPatch(None, None, None, None, None)) == prev
    ensures UpdateSettings(prev, SettingsPatch(Some(next.theme), Some(next.soundEnabled), Some(next.notificationsEnabled),
                                               Some(next.timerPresets), Some(next.activePreset))) == next
  {
  }

  /**
   * `updateTimerPreset(p, m)` sets preset `p` to `m`, keeps every other
   * preset and every other field; a later read of `p` gives `m`.
   */
  lemma UpdateTimerPresetSpec(prev: TimerSettings, p: PresetType, minutes: int)
    ensures var r := UpdateTimerPreset(prev, p, minutes);
      r.timerPresets.Get(p) == minutes &&
      (forall q :: q != p ==> r.timerPresets.Get(q) == prev.timerPresets.Get(q)) &&
      r.theme == prev.theme && r.soundEnabled == prev.soundEnabled &&
      r.notificationsEnabled == prev.notificationsEnabled && r.activePreset == prev.activePreset
  {
  }

  /** Every preset lies within the 1-120 minutes the settings form accepts. */
  predicate PresetsInRange(p: Presets) {
    forall q :: 1 <= p.Get(q) <= 120
  }

  /** Updates within the accepted range keep every preset in range; the defaults are in range. */
  lemma PresetRangeKept(prev: TimerSettings, p: PresetType, minutes: int)
    requires PresetsInRange(prev.timerPresets) && 1 <= minutes <= 120
    ensures PresetsInRange(UpdateTimerPreset(prev, p, minutes).timerPresets)
    ensures PresetsInRange(DefaultSettings.timerPresets)
  {
    var r := UpdateTimerPreset(prev, p, minutes).timerPresets;
    forall q
      ensures 1 <= r.Get(q) <= 120
    {
      if q != p {
        assert r.Get(q) == prev.timerPresets.Get(q);
      }
    }
    forall q
      ensures 1 <= DefaultSettings.timerPresets.Get(q) <= 120
    {
    }
  }

  /** `setActivePreset` changes only the active preset. */
  lemma SetActivePresetSpec(prev: TimerSettings, p: PresetType)
    ensures SetActivePreset(prev, p) == prev.(activePreset := p)
    ensures SetActivePreset(prev, p).activePreset == p
    ensures SetActivePreset(SetActivePreset(prev, p), p) == SetActivePreset(prev, p)
  {
  }

  /** The theme visits all three values and three toggles are the identity. */
  lemma ToggleThemeCycle(prev: TimerSettings)
    ensures ToggleTheme(ToggleTheme(ToggleTheme(prev))) == prev
    ensures ToggleTheme(prev).theme != prev.theme
    ensures ToggleTheme(prev) == prev.(theme := ToggleTheme(prev).theme)
    ensures {prev.theme, ToggleTheme(prev).theme, ToggleTheme(ToggleTheme(prev)).theme} == {Light, Dark, System}
  {
  }

  /** Each toggle negates only its own flag, so applying it twice is the identity. */
  lemma TogglesAreInvolutions(prev: TimerSettings)
    ensures ToggleSound(prev).soundEnabled == !prev.soundEnabled
    ensures ToggleSound(prev) == prev.(soundEnabled := !prev.soundEnabled)
    ensures ToggleNotifications(prev).notificationsEnabled == !prev.notificationsEnabled
    ensures ToggleNotifications(prev) == prev.(notificationsEnabled := !prev.notificationsEnabled)
    ensures ToggleSound(ToggleSound(prev)) == prev
    ensures ToggleNotifications(ToggleNotifications(prev)) == prev
    ensures ToggleSound(ToggleNotifications(prev)) == ToggleNotifications(ToggleSound(prev))
  {
  }
}
