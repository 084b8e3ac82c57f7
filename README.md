# AutoLynx front-end logic, modelled and proved in Dafny

AutoLynx is a portal for managing AI cold-calling campaigns. This project
models the logic in its browser front-end that can be stated precisely:

- **Contact parser.** The inline chat turns pasted text into call contacts
  (name, E.164 phone, business name). It keeps at most 50 of them, in input
  order.
- **Statistics.** These are the counts on the campaign page, the campaign
  list badges, and the dashboard aggregates with their seven-day call trend.
- **Formatters and classifiers.** The call-duration formatter, the toast
  chosen for a CSV upload message, the fallback UUID generator, the branding
  texts and the document title.
- **Preference state.** The chat-mode setting and the webhook configuration,
  both kept in the browser's `localStorage`.

Each source file becomes one Dafny module:

| module | models |
|---|---|
| `InlineChat`, `InlineChatProperties`, `InlineChatFields` | `src/components/InlineChat.tsx` |
| `ContactRecords`, `CampaignDetail` | `src/pages/CampaignDetail.tsx` |
| `Campaigns` | `src/pages/Campaigns.tsx` |
| `DashboardStats` | `src/hooks/useDashboardStats.ts` |
| `Dashboard` | `src/pages/Dashboard.tsx` |
| `Upload` | `src/pages/Upload.tsx` |
| `Storage`, `Settings` | `src/pages/Settings.tsx` |
| `Json`, `WebhookConfig` | `src/hooks/useWebhookConfig.ts` |
| `Utils` | `src/lib/utils.ts` |

`Wrappers` (an `Option` type) and `Strings` are shared helpers. `Strings`
defines JavaScript's `trim`, `split`, `indexOf`, `includes`, `replace` of the
first occurrence and ASCII `toLowerCase`, plus decimal and hexadecimal
numerals.

**Form of the model.**
- The loops and mutable state of the source are imperative Dafny:
  - the parser's `for` loop is `InlineChat.ParseTextToContacts`;
  - the trend's day loop is `DashboardStats.CollectDays`;
  - React state and `localStorage` are classes with `modifies` clauses: the
    dashboard hook, the settings page, the webhook hook, the store and the
    document.
- The loop methods (`ParseTextToContacts`, `CollectDays`,
  `GenerateTrendData`) are proved equal to specification functions, and the
  properties are proved about those functions. The class methods state
  their new state directly in their `ensures`, and lemmas beside them chain
  several calls (save then load, fail then refetch).
- Everything else is functions and lemmas.

**Phone numbers.** The parser's pattern `\+[1-9]\d{1,14}` and its anchored
validator both require a literal `+`, followed by a digit 1–9 and 1 to 14
more digits: 2 to 15 digits in all, the ITU-T E.164 maximum of 15 included.
Nothing adds a missing `+`, so a phone written without it is dropped
(`InlineChatFields.ExampleNoPlus`).

## Model

| member | source | states |
|---|---|---|
| InlineChat.TestPhone | src/components/InlineChat.tsx:48-49 | The anchored phone test accepts a phone exactly when it is `+`, a digit 1–9, then 1 to 14 digits (`IsE164`). |
| InlineChat.MatchAt | src/components/InlineChat.tsx:39 | At a given start, the pattern matches the longest E.164-shaped piece starting there; it matches nothing exactly when no piece starting there has that shape. |
| InlineChat.FindPhone | src/components/InlineChat.tsx:39 | A match found in the line is an E.164-shaped piece of it. |
| InlineChat.FindPhoneLeftmostLongest | src/components/InlineChat.tsx:39 | The match starts before every other E.164-shaped piece and is the longest at its start. There is no match exactly when no piece of the line has that shape. |
| InlineChat.LineContactAccepted | src/components/InlineChat.tsx:46-52 | Every record a line contributes passed validation: name and phone non-empty, name of 2–64 characters, E.164 phone. |
| InlineChat.GatherKeeps | src/components/InlineChat.tsx:18-53 | A property that every line's record has is had by every collected record. |
| InlineChat.GatherStep | src/components/InlineChat.tsx:18-53 | Handling line i appends that line's record, if any, to the records of the earlier lines. |
| InlineChat.LineContactOfFields | src/components/InlineChat.tsx:19-52 | A non-blank line contributes its fields exactly when they pass validation, and nothing otherwise. |
| InlineChat.LineContact | src/components/InlineChat.tsx:19-52 | One pass of the loop body: the record a line contributes, if any. `LineContactAccepted`, `LineContactOfFields` and the `InlineChatFields` lemmas state what it gives. |
| InlineChat.CapAccepted | src/components/InlineChat.tsx:55 | Cutting accepted records to the first 50 keeps at most 50, all still accepted. |
| InlineChat.ParseTextAccepted | src/components/InlineChat.tsx:47-55 | The parser returns at most 50 contacts. Each has a name of 2–64 characters and an E.164 phone. |
| InlineChat.ParseText | src/components/InlineChat.tsx:14-56 | The result of `parseTextToContacts`: the first 50 records of the lines, in order. `ParseTextAccepted`, `FirstFiftyOfGoodLines`, `BlankLineInText` and `ParseRenderParse` state its properties. |
| InlineChat.ReadFields | src/components/InlineChat.tsx:27-44 | The loop body's assignments to `name`, `phone` and `business_name` give exactly the fields of the line (`LineFields`). |
| InlineChat.ParseTextToContacts | src/components/InlineChat.tsx:14-56 | The loop returns the records of the non-blank, valid lines in input order, cut to 50 (`ParseText`). There are at most 50 and all are accepted. |
| InlineChatProperties.LineContactIgnoresOuterWhitespace | src/components/InlineChat.tsx:19 | A line's record does not change when whitespace is added around it. |
| InlineChatProperties.GatherAppend | src/components/InlineChat.tsx:18-53 | The records of two blocks of lines are the records of the first block followed by those of the second. |
| InlineChatProperties.GatherSkips | src/components/InlineChat.tsx:20 | A line without a record can be removed without changing the other lines' records. |
| InlineChatProperties.GatherTrimRedundant | src/components/InlineChat.tsx:15 | Trimming the whole text before splitting it into lines changes no record. |
| InlineChatProperties.GatherEvery | src/components/InlineChat.tsx:18-53 | When every line has a record, the i-th collected record is line i's record. |
| InlineChatProperties.CollectAppend | src/components/InlineChat.tsx:18-53 | Collected records distribute over joining blocks of lines. |
| InlineChatProperties.BlankLineIgnored | src/components/InlineChat.tsx:19-20 | An empty or whitespace-only line gives no record and can be removed without changing the result. |
| InlineChatProperties.OuterTrimRedundant | src/components/InlineChat.tsx:15 | The outer `text.trim()` does not change the records. |
| InlineChatProperties.ParseJoinedLines | src/components/InlineChat.tsx:15-55 | For text made of given lines, the result is the first 50 records of those lines. |
| InlineChatProperties.BlankLineInText | src/components/InlineChat.tsx:15-20 | Inserting a blank line anywhere in the text leaves the parser's result unchanged. |
| InlineChatProperties.FirstFiftyOfGoodLines | src/components/InlineChat.tsx:18-55 | When every line is valid, the result is exactly the first 50 lines' records (all of them when fewer), in line order. |
| InlineChatProperties.CapPrefix | src/components/InlineChat.tsx:55 | `slice(0, 50)` keeps min(n, 50) records, and they are the first ones. |
| InlineChatProperties.ParseRenderParse | src/components/InlineChat.tsx:14-56 | Parsing is idempotent: the result, written back as one `"name, phone, business"` line per record, parses to the same result. |
| InlineChatProperties.ParseTextClean | src/components/InlineChat.tsx:19-44 | Every returned record has fields without commas, line breaks or outer whitespace. |
| InlineChatProperties.RenderedLine | src/components/InlineChat.tsx:19-52 | A clean, accepted record written as `"name, phone, business"` is one line that reads back as that record. |
| InlineChatProperties.FormatEmptyBusiness | src/components/InlineChat.tsx:27-36 | `"name, phone, "` gives those fields with an empty business name when they are valid, and nothing otherwise. |
| InlineChatFields.CommaLineFields | src/components/InlineChat.tsx:27-36 | With two or more comma-separated parts, the fields are the trimmed first, second and (when present) third parts, else an empty business name. Further parts are ignored. |
| InlineChatFields.MatchIsFirstOccurrence | src/components/InlineChat.tsx:39-42 | The matched phone's first occurrence in the line is the match itself. So `replace(phone, '')` removes exactly the matched piece. |
| InlineChatFields.PhoneLineFields | src/components/InlineChat.tsx:37-44 | A comma-free line with a match gives the match as phone, the rest of the line (match removed) trimmed as name, and an empty business name. |
| InlineChatFields.NoPhoneNoRecord | src/components/InlineChat.tsx:38-47 | A comma-free line with no E.164-shaped piece gives no record. |
| InlineChatFields.PhoneFromLine | src/components/InlineChat.tsx:35-41 | Every kept phone is a contiguous piece of the trimmed line it was read from: phones are never rewritten or prefixed. |
| InlineChatFields.PhoneFromInputLine | src/components/InlineChat.tsx:19-41 | Every kept phone is a contiguous piece of the untrimmed input line. |
| InlineChatFields.TrimmedLineContactClean | src/components/InlineChat.tsx:27-44 | Every field of a kept record has no comma, no line break and no outer whitespace. |
| InlineChatFields.LineContactClean | src/components/InlineChat.tsx:19-44 | The same holds for the record of an untrimmed input line. |
| InlineChatFields.CommaLineContact | src/components/InlineChat.tsx:27-52 | A comma line built from fields gives those fields, trimmed, exactly when they pass validation. |
| InlineChatFields.FormatThreeFields | src/components/InlineChat.tsx:23-36 | `"name, phone, business"` gives those three fields when they are valid, and nothing otherwise. |
| InlineChatFields.FormatTwoFields | src/components/InlineChat.tsx:24-36 | `"name, phone"` gives those fields and an empty business name when valid, and nothing otherwise. |
| InlineChatFields.FormatPhoneFirst | src/components/InlineChat.tsx:25-44 | `"phone name"` with an E.164 phone gives that phone and name exactly when the name has 2–64 characters. |
| InlineChatFields.ExampleThreeFields | src/components/InlineChat.tsx:102 | The first placeholder example gives {John Doe, +1234567890, Acme Corp}. |
| InlineChatFields.ExampleTwoFields | src/components/InlineChat.tsx:103 | The second placeholder example gives {Jane Smith, +1987654321, ""}. |
| InlineChatFields.ExamplePhoneFirst | src/components/InlineChat.tsx:104 | The third placeholder example gives {Bob Johnson, +1555123456, ""}. |
| InlineChatFields.ExampleShortName | src/components/InlineChat.tsx:47 | A one-character name is dropped. |
| InlineChatFields.ExampleNoPlus | src/components/InlineChat.tsx:35-49 | A comma line whose phone lacks the `+` is dropped, not corrected. |
| ContactRecords.CountStatusIsMultiplicity | src/pages/CampaignDetail.tsx:32-34 | `filter(c => c.status === s).length` is the number of times s occurs among the statuses. |
| ContactRecords.DistinctCountsBounded | src/pages/CampaignDetail.tsx:31-34 | Counts of three different statuses add up to at most the number of contacts. |
| ContactRecords.CountStatusAppend | src/hooks/useDashboardStats.ts:55-56 | Status counts add over two blocks of contacts. |
| ContactRecords.CalledOnDayMembers | src/hooks/useDashboardStats.ts:62-64 | A contact is kept for a day exactly when its `last_called_at` is non-null, non-empty and starts with the day string. |
| ContactRecords.CalledOnDay | src/hooks/useDashboardStats.ts:62-64 | The contacts called on a day are never more than all contacts. |
| ContactRecords.CalledOnDayMultiplicity | src/hooks/useDashboardStats.ts:62-64 | The filter keeps every occurrence of a row called on the day and no other row. So its length counts those rows, repeats included. |
| ContactRecords.RoundPercent | src/pages/CampaignDetail.tsx:35 | `Math.round(100·part/whole)` is the integer r with 2·whole·r ≤ 200·part + whole < 2·whole·(r+1). |
| ContactRecords.RoundPercentUnique | src/pages/CampaignDetail.tsx:35 | Those bounds determine the rounded value. |
| ContactRecords.RoundPercentBounds | src/hooks/useDashboardStats.ts:58 | For part ≤ whole the rounded share lies in 0..100. It is 0 exactly when 200·part < whole, 0 for part 0, and 100 for part = whole. |
| CampaignDetail.StatusStyleCases | src/pages/CampaignDetail.tsx:16-24 | The default style is used exactly for statuses other than NEW, CALLING, DONE and FAILED. Distinct known statuses get distinct styles. |
| CampaignDetail.StatusStyle | src/pages/CampaignDetail.tsx:15-27 | The style lookup with its grey default. `StatusStyleCases` states which statuses get which style. |
| CampaignDetail.GetStats | src/pages/CampaignDetail.tsx:30-37 | total, completed, failed and inProgress are the number of contacts and the DONE, FAILED and CALLING counts. |
| CampaignDetail.StatsCountsBounded | src/pages/CampaignDetail.tsx:31-34 | completed + failed + inProgress ≤ total. |
| CampaignDetail.SuccessRateCases | src/pages/CampaignDetail.tsx:35 | successRate is in 0..100. It is 0 with no contacts and 0 when nothing finished (the divisor falls back to 1). It is 100 when nothing failed and something completed. Otherwise it is the rounded share of completed among finished. |
| CampaignDetail.ProgressInRange | src/pages/CampaignDetail.tsx:68 | The progress percentage lies in [0, 100] and is 0 without contacts. |
| CampaignDetail.ProgressPercentage | src/pages/CampaignDetail.tsx:68 | The finished share as a percentage, 0 without contacts. `ProgressInRange` states its range. |
| Campaigns.GetStatusBadge | src/pages/Campaigns.tsx:57-67 | "In Progress" exactly when total − completed − failed > 0. Otherwise "Completed" exactly when failed = 0, else "Completed with Errors". |
| Campaigns.BadgeLabels | src/pages/Campaigns.tsx:60-66 | The label is one of the three texts and the class one of the three colour classes. Different badges have different labels and different classes. |
| Campaigns.BadgeClass | src/pages/Campaigns.tsx:60-66 | The colour class of each badge. `BadgeLabels` states that each badge has its own. |
| Campaigns.Remaining | src/pages/Campaigns.tsx:58 | `total - completed - failed`, used by both the badge and the card. `GetStatusBadge` and `CardProgressInRange` state how they depend on it. |
| Campaigns.CardProgressInRange | src/pages/Campaigns.tsx:124-125 | For a positive total and consistent counts, the card progress is in [0, 100]. It is 100 exactly when the card's in-progress count (the badge's formula) is 0. |
| Campaigns.CardProgress | src/pages/Campaigns.tsx:125 | The card progress, defined only for a non-zero total. `CardProgressInRange` states its range and when it is 100. |
| DashboardStats.CountActive | src/hooks/useDashboardStats.ts:67-69 | The active campaigns are never more than all campaigns. |
| DashboardStats.CountActiveIsSize | src/hooks/useDashboardStats.ts:67-69 | The active count is the number of campaigns with total > completed + failed. |
| DashboardStats.DashboardSuccessRate | src/hooks/useDashboardStats.ts:53-58 | The dashboard success rate is in 0..100 and 0 without contacts. Otherwise it is the rounded share of DONE among all contacts, not among finished ones. |
| DashboardStats.LastWeek | src/hooks/useDashboardStats.ts:97-102 | Seven days, oldest first: today − 6 up to today. |
| DashboardStats.CollectDays | src/hooks/useDashboardStats.ts:97-102 | The `for (i = 6; i >= 0; i--)` loop pushes exactly those seven days in that order. |
| DashboardStats.TrendOf | src/hooks/useDashboardStats.ts:104-118 | One trend entry per day, in day order. Each counts the contacts called that day and the DONE ones among them. |
| DashboardStats.GenerateTrendData | src/hooks/useDashboardStats.ts:95-119 | The trend is the entries of the last seven days. |
| DashboardStats.TrendShape | src/hooks/useDashboardStats.ts:97-118 | The trend has 7 entries dated oldest first, with today last. Each has success ≤ calls ≤ number of contacts. Today's entry counts today's calls. |
| DashboardStats.ComputeStats | src/hooks/useDashboardStats.ts:52-85 | The totals are the row counts (a null result counts as none). todaysCalls counts today's calls, activeCampaigns counts the active campaigns, and averageDuration is always 142. |
| DashboardStats.ErrorText | src/hooks/useDashboardStats.ts:89 | The error shown after a failure: the `Error` message, or "Failed to fetch stats". `FetchStats` records it. |
| DashboardStats.StatsConsistent | src/hooks/useDashboardStats.ts:52-75 | successRate ≤ 100 (0 without calls), activeCampaigns ≤ totalCampaigns and todaysCalls ≤ totalCalls. The trend has 7 entries whose last equals todaysCalls, and no entry has more successes than calls. |
| DashboardStats.DashboardStatsHook.FetchStats | src/hooks/useDashboardStats.ts:32-93 | loading ends false. A failure records the error's message (or 'Failed to fetch stats') and keeps the old statistics. A success replaces the statistics and leaves the error as it was. |
| DashboardStats.FailThenRefetch | src/hooks/useDashboardStats.ts:77-91 | After a failed fetch, a successful fetch shows the new statistics and still reports the old error: error is never reset. |
| Dashboard.RemainingSeconds | src/pages/Dashboard.tsx:55 | JavaScript's `%`: in 0..59 for a non-negative duration, and in −59..0 for a negative one. |
| Dashboard.DurationSplit | src/pages/Dashboard.tsx:53-57 | For s ≥ 0: minutes·60 + seconds = s, 0 ≤ seconds < 60, and the text is the two decimal numerals as "<m>m <s>s". |
| Dashboard.FormatDuration | src/pages/Dashboard.tsx:53-57 | The text `"<minutes>m <seconds>s"`. `DurationSplit`, `FormatDurationInjective` and `AverageDurationText` state its properties. |
| Dashboard.DurationSplitUnique | src/pages/Dashboard.tsx:54-55 | The minutes and leftover seconds are the only such pair. |
| Dashboard.FormatDurationInjective | src/pages/Dashboard.tsx:53-57 | Different non-negative durations are shown as different texts. |
| Dashboard.AverageDurationText | src/pages/Dashboard.tsx:42-57 | `formatDuration(142)` is "2m 22s". |
| Upload.CsvUploadToast | src/pages/Upload.tsx:16-40 | The description is always the message unchanged. The title is "Campaign Started! 🚀" exactly when the lower-cased message includes "success" or "started". It is "Upload Issue" (destructive) exactly when it includes "error" or "failed" but neither success word, and "CSV Processing" otherwise. |
| Upload.IsError | src/pages/Upload.tsx:20 | The lower-cased message includes "error" or "failed". `ErrorWordInAnyCase` and `ClassificationIgnoresCase` state its properties. |
| Upload.IsSuccess | src/pages/Upload.tsx:21 | The lower-cased message includes "success" or "started". `SuccessWordInAnyCase` and `ClassificationIgnoresCase` state its properties. |
| Upload.ClassificationIgnoresCase | src/pages/Upload.tsx:20-21 | Messages equal up to letter case get the same title and variant. |
| Upload.LowerCasedMessageAlike | src/pages/Upload.tsx:20-21 | A message and its lower-cased form are classified alike. |
| Upload.SuccessWordInAnyCase | src/pages/Upload.tsx:21-27 | A piece reading "success" or "started" in any case gives the success toast, even when the message also mentions an error. |
| Upload.ErrorWordInAnyCase | src/pages/Upload.tsx:20-33 | A piece reading "error" or "failed" in any case gives the destructive toast unless a success word is present. |
| Upload.WordAbsentInAnyCase | src/pages/Upload.tsx:20-21 | A word that no piece of the message reads in any case is not in the lower-cased message. |
| Upload.NoWordNeutral | src/pages/Upload.tsx:34-39 | A message with none of the four words in any case gets the neutral toast. |
| Storage.LocalStorage.GetItem | src/pages/Settings.tsx:15 | `getItem` gives the stored value, or null for a missing key. |
| Storage.LocalStorage.SetItem | src/pages/Settings.tsx:25 | An accepted write sets exactly that key. A refused write changes nothing. |
| Storage.LocalStorage.RemoveItem | src/pages/Settings.tsx:39 | `removeItem` removes exactly that key. |
| Settings.StoredChatMode | src/pages/Settings.tsx:15 | The stored mode when present and non-empty, else "inline". Never empty. |
| Settings.SavedModeReadBack | src/pages/Settings.tsx:15-25 | A saved non-empty mode reads back as itself. |
| Settings.RemovedModeReadsDefault | src/pages/Settings.tsx:37-40 | With the key removed, "inline" is read. |
| Settings.OtherKeysIrrelevant | src/pages/Settings.tsx:15 | Only the `chatMode` key affects the mode read. |
| Settings.SettingsPage.Load | src/pages/Settings.tsx:14-17 | After load, the mode is the stored-or-"inline" value. |
| Settings.SettingsPage.ChangeMode | src/pages/Settings.tsx:19-22 | A change shows the new mode and marks it unsaved, even when the value is the same. |
| Settings.SettingsPage.Save | src/pages/Settings.tsx:24-35 | Only while unsaved. On an accepted write, the store holds the shown mode under `chatMode`, the page is saved and the mode is unchanged. On a refused write, nothing changes. |
| Settings.SettingsPage.Reset | src/pages/Settings.tsx:37-40 | The mode is "inline", the key is gone, nothing is unsaved, and the store reads the shown mode. |
| Settings.SettingsPage.Cancel | src/pages/Settings.tsx:182-186 | Only while unsaved. The stored-or-"inline" mode is shown again, nothing is unsaved, and the store is untouched. |
| Settings.SaveChangeCancel | src/pages/Settings.tsx:182-185 | Save, then change, then cancel shows the saved mode again. |
| Settings.SaveThenReopen | src/pages/Settings.tsx:14-26 | A page opened after a save shows the saved mode. |
| Json.ReadEscapedChar | src/hooks/useWebhookConfig.ts:23-38 | Each character as `JSON.stringify` escapes it is read back as itself, and only its escape is consumed. |
| Json.ReadEscaped | src/hooks/useWebhookConfig.ts:23-38 | An escaped string followed by a quote is read back as the string, leaving what follows. |
| Json.ReadStringLiteral | src/hooks/useWebhookConfig.ts:23-38 | A JSON string literal is read back as the string it was written from. |
| Json.StringLiteralInjective | src/hooks/useWebhookConfig.ts:38 | Different strings are written as different literals. |
| WebhookConfig.ParseSerialize | src/hooks/useWebhookConfig.ts:23-38 | Parsing a written configuration gives it back: parse ∘ serialise = id. |
| WebhookConfig.SerializeInjective | src/hooks/useWebhookConfig.ts:38 | Different configurations are stored as different texts. |
| WebhookConfig.Serialize | src/hooks/useWebhookConfig.ts:38 | `JSON.stringify` of a configuration. `ParseSerialize` and `SerializeInjective` state its properties. |
| WebhookConfig.Parse | src/hooks/useWebhookConfig.ts:21-24 | `JSON.parse` for texts in the written shape. `ParseSerialize` and `ParseRefusesEmpty` state its properties. |
| WebhookConfig.ParseRefusesEmpty | src/hooks/useWebhookConfig.ts:21-24 | An empty stored text parses to nothing, so loading it keeps the configuration, as the `if (savedConfig)` guard does. |
| WebhookConfig.WebhookConfigHook.LoadConfig | src/hooks/useWebhookConfig.ts:19-31 | isLoaded becomes true in every case. A stored text that parses becomes the configuration. A missing, empty or unparseable one leaves it unchanged (DEFAULT on mount). |
| WebhookConfig.WebhookConfigHook.SaveConfig | src/hooks/useWebhookConfig.ts:36-51 | An accepted write stores the serialised configuration, sets it and returns true. A refused write returns false and changes neither store nor configuration. |
| WebhookConfig.WebhookConfigHook.ResetConfig | src/hooks/useWebhookConfig.ts:53-68 | The key is removed, the configuration is DEFAULT, and true is returned. |
| WebhookConfig.LoadFromEmptyStore | src/hooks/useWebhookConfig.ts:9-31 | A hook mounted over an empty store is loaded with both URLs "". |
| WebhookConfig.SaveThenLoad | src/hooks/useWebhookConfig.ts:21-38 | A hook mounted after a save loads the saved configuration. |
| WebhookConfig.ResetThenLoad | src/hooks/useWebhookConfig.ts:53-68 | A hook mounted after a reset loads DEFAULT. |
| Utils.VariantNibble | src/lib/utils.ts:18 | `(r & 0x3 \| 0x8)` is in 8..11 and keeps r's low two bits. |
| Utils.FillAt | src/lib/utils.ts:16-19 | Each placeholder is replaced using the draw numbered by the placeholders before it; other characters are kept. |
| Utils.TemplatePlaceholders | src/lib/utils.ts:16 | The template has 36 characters and 31 placeholders. |
| Utils.FallbackUuid | src/lib/utils.ts:16-20 | The fallback UUID has length 36. |
| Utils.FallbackUuidLayout | src/lib/utils.ts:16-19 | Dashes are at 8, 13, 18 and 23, and '4' is at 14. One of '8', '9', 'a', 'b' is at 19, and lowercase hex digits are everywhere else. |
| Utils.FallbackUuidDigits | src/lib/utils.ts:17-19 | Every 'x' position holds the hex digit of its own draw. |
| Utils.BrandingNeverEmpty | src/lib/utils.ts:25-30 | No branding text is ever empty. |
| Utils.DefaultBranding | src/lib/utils.ts:25-30 | Without the variables, the four defaults are used. |
| Utils.BrandingFromEnv | src/lib/utils.ts:25-30 | Each branding variable that is set and non-empty is the text shown. |
| Utils.EnvOr | src/lib/utils.ts:26 | `import.meta.env.X \|\| default`. `BrandingFromEnv`, `BrandingNeverEmpty` and `DefaultBranding` state both halves. |
| Utils.GetBranding | src/lib/utils.ts:24-31 | The four branding texts. `BrandingFromEnv`, `BrandingNeverEmpty` and `DefaultBranding` state its properties. |
| Utils.TitleEndsWithAppName | src/lib/utils.ts:36-38 | Every title ends with the application name. |
| Utils.TitleDeterminesPageTitle | src/lib/utils.ts:36-38 | Different non-empty page titles give different document titles. |
| Utils.DocumentTitle | src/lib/utils.ts:36-38 | The composed title. `TitleEndsWithAppName` and `TitleDeterminesPageTitle` state its properties. |
| Utils.Document.UpdateDocumentTitle | src/lib/utils.ts:34-39 | `document.title` becomes the composed title. |

## Left out

- The HTTP calls to the automation webhooks, the Supabase queries and realtime subscriptions, JSX rendering, toasts as UI, timers and `console` logging. These are I/O or UI with no contract of their own. The model takes the fetched rows, or a failure, as inputs.
- Dates and locale. `new Date()`, `setDate`, `toISOString`, `toLocaleDateString` are outside the model. Days are integers, and "today" plus the two date renderings are parameters. `fetchStats` and `generateTrendData` each read the clock separately, so around midnight they can disagree about "today". The model uses one `today`.
- `DashboardStats.DashboardStatsHook.FetchStats`: the React state updates are applied at once and in order. Batching, re-renders and concurrent fetches are not modelled.
- `DashboardStats.Failure`: whether a Supabase error object is an `instanceof Error` is a fact about the library. The model takes it as input.
- Floating point. Progress percentages are `real`, and `Math.round` is exact integer rounding (halves up). IEEE rounding at exact .5 ratios is not modelled.
- `Campaigns.CardProgress`: a campaign card with total 0 divides by zero (NaN in the browser). The model requires a non-zero total.
- `CampaignDetail.StatusStyle`: a status naming an `Object.prototype` member (such as "toString") would find that member in the source's lookup. The model uses the four keys only.
- `Upload.IsError`, `Upload.IsSuccess`: `toLowerCase` is modelled for ASCII letters only. Unicode case mapping is not part of this model.
- `InlineChat.IsAccepted`: name length is counted in characters, not UTF-16 code units.
- `WebhookConfig.Parse`: `JSON.parse` accepts any JSON text, and the source would then set the configuration to whatever it parsed. The model reads only texts in the written shape: object with the two fields in order, no whitespace, and inside the strings the short escapes and the `\u` escapes outside the surrogate range. Other JSON is treated as unparseable, which leaves the configuration unchanged. Every `\u` escape from D800 to DFFF is refused, a well-formed surrogate pair such as `\uD83D\uDE00` included, where `JSON.parse` would give one astral character; Dafny characters are Unicode scalar values and pairs are not decoded. `JSON.stringify` writes such characters unescaped, so the save-then-load round trip is unaffected.
- `Storage.LocalStorage.RemoveItem`: reading or removing a key is taken never to fail. Only writes can be refused (the `accepted` input).
- `window.dispatchEvent` notifications after saving and resetting are not modelled.
- `crypto.randomUUID` is a foreign call. Only the fallback UUID template fill is modelled, with the `Math.random()` draws as an input sequence of nibbles.
- `cn` (clsx/tailwind-merge) and `updateDocumentMeta` (DOM queries) are foreign helpers.
- `import.meta.env` is a map from variable names to strings.

