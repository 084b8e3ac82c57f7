/**
 * The chat-mode preference of the settings page (src/pages/Settings.tsx):
 * the mode being edited, whether it differs from what was last saved, and
 * the `chatMode` key of the browser store that saving, resetting and
 * cancelling read and write.
 */
module Settings {
  import opened Wrappers
  import opened Storage

  const ChatModeKey: string := "chatMode"
  const DefaultChatMode: string := "inline"

  /**
   * `localStorage.getItem('chatMode') || 'inline'`: the stored mode, unless
   * it is missing or the empty string (which JavaScript treats as false).
   */
  function StoredChatMode(items: map<string, string>): (mode: string)
    ensures mode != ""
    ensures ChatModeKey in items && items[ChatModeKey] != "" ==> mode == items[ChatModeKey]
    ensures ChatModeKey !in items || items[ChatModeKey] == "" ==> mode == DefaultChatMode
  {
    if ChatModeKey in items && items[ChatModeKey] != "" then items[ChatModeKey] else DefaultChatMode
  }

  /** A saved non-empty mode is read back as itself. */
  lemma SavedModeReadBack(items: map<string, string>, mode: string)
    requires mode != ""
    ensures StoredChatMode(items[ChatModeKey := mode]) == mode
  {
  }

  /** With the key removed the default mode is read. */
  lemma RemovedModeReadsDefault(items: map<string, string>)
    ensures StoredChatMode(items - {ChatModeKey}) == DefaultChatMode
  {
  }

  /** Only the `chatMode` key matters: writing or removing any other key reads the same mode. */
  lemma OtherKeysIrrelevant(items: map<string, string>, key: string, value: string)
    requires key != ChatModeKey
    ensures StoredChatMode(items[key := value]) == StoredChatMode(items)
    ensures StoredChatMode(items - {key}) == StoredChatMode(items)
  {
  }

  class SettingsPage {
    /** The mode shown in the radio group. */
    var chatMode: string
    /** Whether the shown mode was changed since it was last loaded, saved or reset. */
    var hasUnsavedChanges: bool
    /** The browser store the page shares with the rest of the application. */
    const store: LocalStorage

    /** The initial state: `useState('inline')` and `useState(false)`. */
    constructor (store: LocalStorage)
      ensures this.store == store
      ensures chatMode == DefaultChatMode && !hasUnsavedChanges
    {
      this.store := store;
      chatMode := DefaultChatMode;
      hasUnsavedChanges := false;
    }

    /** The mount effect: the shown mode becomes the stored one, or the default. */
    method Load()
      modifies this
      ensures chatMode == StoredChatMode(store.items)
      ensures hasUnsavedChanges == old(hasUnsavedChanges)
    {
      chatMode := StoredChatMode(store.items);
    }

    /** `handleChatModeChange`: the new mode is shown and marked unsaved, even when it equals the old one. */
    method ChangeMode(value: string)
      modifies this
      ensures chatMode == value && hasUnsavedChanges
    {
      chatMode := value;
      hasUnsavedChanges := true;
    }

    /**
     * `saveSettings`, reachable only while there are unsaved changes (the
     * button is disabled otherwise). The shown mode is written under the
     * key and the page is marked saved. When the browser refuses the write
     * the handler stops at the throwing call: nothing changes, and `false`
     * is returned.
     */
    method Save(accepted: bool) returns (saved: bool)
      requires hasUnsavedChanges
      modifies this, store
      ensures saved == accepted
      ensures chatMode == old(chatMode)
      ensures accepted ==> store.items == old(store.items)[ChatModeKey := chatMode] && !hasUnsavedChanges
      ensures !accepted ==> store.items == old(store.items) && hasUnsavedChanges
    {
      saved := store.SetItem(ChatModeKey, chatMode, accepted);
      if saved {
        hasUnsavedChanges := false;
      }
    }

    /** `resetSettings`: the default mode is shown, the key is removed and nothing is unsaved. */
    method Reset()
      modifies this, store
      ensures chatMode == DefaultChatMode && !hasUnsavedChanges
      ensures store.items == old(store.items) - {ChatModeKey}
      ensures StoredChatMode(store.items) == chatMode
    {
      chatMode := DefaultChatMode;
      store.RemoveItem(ChatModeKey);
      hasUnsavedChanges := false;
      RemovedModeReadsDefault(old(store.items));
    }

    /**
     * The Cancel button, enabled only while there are unsaved changes: the
     * stored mode (or the default) is shown again and nothing is unsaved;
     * the store is only read.
     */
    method Cancel()
      requires hasUnsavedChanges
      modifies this
      ensures chatMode == StoredChatMode(store.items) && !hasUnsavedChanges
      ensures store.items == old(store.items)
    {
      chatMode := StoredChatMode(store.items);
      hasUnsavedChanges := false;
    }
  }

  /**
   * Saving a mode, changing it again and then cancelling shows the saved
   * mode: cancel returns to what was last saved.
   */
  method SaveChangeCancel(page: SettingsPage, other: string)
    requires page.hasUnsavedChanges && page.chatMode != ""
    modifies page, page.store
    ensures page.chatMode == old(page.chatMode) && !page.hasUnsavedChanges
    ensures page.store.items == old(page.store.items)[ChatModeKey := old(page.chatMode)]
  {
    var saved := page.Save(true);
    page.ChangeMode(other);
    page.Cancel();
    SavedModeReadBack(old(page.store.items), old(page.chatMode));
  }

  /** A mode saved on one settings page is the mode a page opened later shows. */
  method SaveThenReopen(page: SettingsPage) returns (later: SettingsPage)
    requires page.hasUnsavedChanges && page.chatMode != ""
    modifies page, page.store
    ensures later.store == page.store
    ensures later.chatMode == old(page.chatMode) && !later.hasUnsavedChanges
  {
    var saved := page.Save(true);
    later := new SettingsPage(page.store);
    later.Load();
    SavedModeReadBack(old(page.store.items), old(page.chatMode));
  }
}
