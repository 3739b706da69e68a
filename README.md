# team-digest in Dafny

team-digest turns a team's daily Markdown logs (`notes-YYYY-MM-DD.md`, one per day, with sections such as Summary, Decisions, Actions, Risks, Dependencies and Notes) into a Markdown digest for one day or a date range. It also re-sorts the Actions of a written digest by priority, and cuts a digest into Slack-sized chunks.

This project models the digest logic of the repository and proves what it promises. The modules follow the program's files:

| module | file | what it models |
|---|---|---|
| `Wrappers` | wrappers.dfy | `Option` and `Result` (a Python exception is an `Err`) |
| `Text` | text.dfy | the `str` built-ins used: `strip`, `lower` (ASCII), `find`, `replace`, `split`, `splitlines`, `join` |
| `Sorting` | sorting.dfy | `sorted` as a stable sort on keys compared like Python tuples |
| `Dates` | dates.dfy | `datetime.date`: ordinals, weekday, adding days (OverflowError outside years 1 to 9999), ISO text |
| `Sections` | sections.dfy | the six digest sections in print order |
| `LogText` | logtext.dfy | the helpers that scripts/digest_aggregate.py and scripts/digest_daily.py both define: mojibake repair, `HDR_LINE`, `normalize_heading`, `slice_sections`, bullets, `clean_item_text`, `normalize_block_text`, priority tags |
| `OwnerNames` | owners.dfy | `extract_name` |
| `ActionItems` | actions.dfy | the action items of one log |
| `DigestRender` | render.dfy | `emit_block`, the flat and bucketed Actions lists, the final `"\n".join(out).rstrip() + "\n"` |
| `DigestAggregate` | aggregate.dfy | scripts/digest_aggregate.py: a date range folded into one digest |
| `DigestDaily` | daily.dfy | scripts/digest_daily.py: the digest of one day |
| `PackagedLogs` | packaged_logs.dfy | log names and dates, `list_logs_in_range` and `list_logs_for_month` of src/team_digest/team_email_digest.py |
| `PackagedParse` | packaged_parse.dfy | `extract_sections`, bullets, `infer_priority`, `infer_owner`, `parse_day_doc`, `group_actions`, `aggregate_sections` |
| `PackagedKpis` | packaged_kpis.dfy | the priority and owner counters and the ranked owner breakdown |
| `PackagedRender` | packaged_render.dfy | `render_counts_line`, `render_md_daily`, `render_md_range` |
| `LegacyText` | legacy_text.dfy | the line helpers of the root team_email_digest.py: aliases, `HEADER_RE`, `BULLET_RE`, `_norm_space`, `_unique_preserve_order`, `_normalize_date` |
| `LegacyDigest` | legacy_digest.dfy | `parse_sections`, `_parse_actions`, `build_digest`, `render_markdown` of the root team_email_digest.py |
| `SortActions` | sort_actions.dfy | scripts/sort_actions.py as a text-to-text function |
| `PostDigest` | post_digest.dfy | `read_env_webhook` and `chunk_text` of post_digest.py |
| `WeeklyWindow` | weekly_window.dfy | `last_week_window` of weekly_digest.py |

Each regular expression of the source is written out as a scanner that follows the backtracking the pattern allows, so a lemma about a pattern is a lemma about that scanner. Loops that build lists or dicts in the source are methods with loops, proved equal to a function. The properties are proved about those functions.

Where the description of the program and its code disagree, the model follows the code:

- **Duplicate headings.** A log with two headings of the same section keeps only the body of the last one. This holds in both `slice_sections` (scripts/digest_aggregate.py:43-59) and `extract_sections` (src/team_digest/team_email_digest.py:110-130). `LogText.SlicedSectionsLastWins` and `PackagedParse.ExtractedSectionLastWins` state it. The code does this on purpose in both versions, so it is a property, not a finding.
- **`HEADER_RE` and `fix_mojibake`.** The pipelines (`LegacyDigest.ParseSections`, `LogText.SliceSections`, `DigestAggregate.Aggregate`) use these helpers as written. The corrected versions stand beside them, as set out under "## Findings".
- **digest_daily.py helpers.** The helpers digest_daily.py shares with digest_aggregate.py are the same line for line. The model defines them once, and the table cites digest_aggregate.py for them.

## Model

| member | source | states |
|---|---|---|
| ActionItems.LevelNamed | scripts/digest_aggregate.py:200 | Each of the four bucket names, as a label, names its own bucket; no other label does. |
| ActionItems.NonBlank | scripts/digest_aggregate.py:158 | At most as many lines as given, each non-empty and already stripped. |
| ActionItems.ActionLinesShape | scripts/digest_aggregate.py:155-160 | Bullets win; the plain-line fallback needs a tag and no bullets; every contributed line is non-blank and stripped. |
| ActionItems.MakeItem | scripts/digest_aggregate.py:161-165 | The item's label is the label `detect_priority` finds, its rank is that label's rank, and its owner is lower-case. |
| ActionItems.MakeItems | scripts/digest_aggregate.py:161-165 | One item per line, in line order, each the item of its line. |
| ActionItems.SelectLines | scripts/digest_aggregate.py:155-160 | Returns exactly the lines `ActionLines` selects: the collected bullets, else the tagged plain-line fallback. |
| ActionItems.DayActions | scripts/digest_aggregate.py:154-165 | The day's items are the items of the selected lines, in order. |
| ActionItems.PrioritySortedRanks | scripts/digest_aggregate.py:199 | Sorting by a key that starts with the rank puts ranks in order. |
| DigestAggregate.LogNameInjective | scripts/digest_aggregate.py:140 | Different days read different files. |
| DigestAggregate.Here | scripts/digest_aggregate.py:140-144 | At most one text for a day, and one exactly when that day's file exists. |
| DigestAggregate.FoundAdvance | scripts/digest_aggregate.py:139-144 | One day of the loop: what was read before it, then its log, then the rest of the range. |
| DigestAggregate.FoundNone | scripts/digest_aggregate.py:139-142 | A range none of whose days has a log reads nothing. |
| DigestAggregate.FoundCount | scripts/digest_aggregate.py:139-144 | A range reads at most one log per day, and every day's log when all are present. |
| DigestAggregate.DayEntry | scripts/digest_aggregate.py:148-152 | At most one entry per day, non-empty and already stripped. |
| DigestAggregate.Collected | scripts/digest_aggregate.py:147-152 | At most one entry per log, each non-empty and already stripped. |
| DigestAggregate.DayItems | scripts/digest_aggregate.py:154-165 | Every item of a log carries the rank of its label. |
| DigestAggregate.AllItems | scripts/digest_aggregate.py:154-165 | Every item of every log carries the rank of its label. |
| DigestAggregate.AccMap | scripts/digest_aggregate.py:135 | `acc` holds every section name, each with its own list. |
| DigestAggregate.AccumulatedAt | scripts/digest_aggregate.py:147-152 | `Accumulated` holds `Collected` under every name. |
| DigestAggregate.AccumulatedStep | scripts/digest_aggregate.py:139-165 | Adding one log's entries to `Accumulated` of the earlier logs gives `Accumulated` of all of them. |
| DigestAggregate.CollectedStep | scripts/digest_aggregate.py:147-152 | One more log appends its entry to each narrative section. |
| DigestAggregate.AllItemsStep | scripts/digest_aggregate.py:154-165 | One more log appends its action items. |
| DigestAggregate.AddNarrative | scripts/digest_aggregate.py:147-152 | Each narrative section gains the day's entry, if any; the Actions list is unchanged. |
| DigestAggregate.AddDay | scripts/digest_aggregate.py:143-165 | Each narrative section gains the day's entry, and the day's action items are appended to `action_items`. |
| DigestAggregate.ReadRange | scripts/digest_aggregate.py:139-144 | Stepping past `date.max` raises exactly when the range is non-empty and ends on `date.max`; the texts read are the existing logs of the range, in date order, one matched name per text. |
| DigestAggregate.VisitDay | scripts/digest_aggregate.py:140-144 | A day's text is read, and its name matched, exactly when its file exists. |
| DigestAggregate.FoldLogs | scripts/digest_aggregate.py:145-165 | After the logs, `acc` holds each narrative section's entries day by day and `action_items` all their items, in order. |
| DigestAggregate.EmitActions | scripts/digest_aggregate.py:187-213 | Appends exactly the Actions part of the view the options choose (flat by name, grouped, or flat by priority). |
| DigestAggregate.EmitSections | scripts/digest_aggregate.py:184-217 | Appends the sections in the order Summary, Decisions, Actions, Risks, Dependencies, Notes. |
| DigestAggregate.Render | scripts/digest_aggregate.py:167-220 | The file is the header lines and the section lines joined by newlines, right-stripped, and ended by one newline. |
| DigestAggregate.Aggregate | scripts/digest_aggregate.py:131-220 | OverflowError exactly when the range is non-empty and ends on `date.max`; otherwise the rendered digest of the logs found in the range. |
| DigestAggregate.DigestLinesFirst | scripts/digest_aggregate.py:167-168 | The digest's first line is `# title`; with `FinishFirstLine`, the file starts with it. |
| DigestAggregate.FinishFirstLine | scripts/digest_aggregate.py:220 | A file whose first line is a title line starts with that line. |
| DigestAggregate.ActionsSortedPermutation | scripts/digest_aggregate.py:187-213 | The Actions list holds every action item exactly once, sorted by the chosen key; equal keys keep the order the logs gave them. |
| DigestAggregate.ActionsPartLines | scripts/digest_aggregate.py:187-213 | In every view the Actions part lists each item on its own line: the flat views as one tagged line per sorted item, the grouped view as the same sorted items' lines, split under bucket headings. |
| DigestAggregate.MissingDaysSkipped | scripts/digest_aggregate.py:139-173 | A range whose logs are all missing gives the header alone, with no day matched and no action. |
| DigestDaily.Fields | scripts/digest_daily.py:167 | Every field name kept is non-empty. |
| DigestDaily.Part | scripts/digest_daily.py:171-174 | A known field contributes its one part; an unknown field contributes nothing. |
| DigestDaily.Parts | scripts/digest_daily.py:170-174 | `parts` after the loop of `sort_key`: one part per known field, in the order the fields are given; unknown fields are skipped. |
| DigestDaily.SortKey | scripts/digest_daily.py:168-175 | Returns the key of the known fields' parts, or (rank, name, lower-cased text) when no field is known. |
| DigestDaily.UnknownFieldsDefault | scripts/digest_daily.py:175 | Fields the key does not know fall back to the default order. |
| DigestDaily.KnownFieldsKey | scripts/digest_daily.py:170-175 | With at least one known field the key is exactly the known fields' parts, in order. |
| DigestDaily.SplitThree | scripts/digest_daily.py:167 | Three comma-free pieces joined by commas split back into them. |
| DigestDaily.FieldsOfClean | scripts/digest_daily.py:167 | Pieces that are already clean field names are kept as they are. |
| DigestDaily.DefaultFields | scripts/digest_daily.py:130 | The default `--sort-actions` names the three fields in order. |
| DigestDaily.DefaultKeyIsPriority | scripts/digest_daily.py:168-175 | The default sort is the priority order: rank, then name, then text. |
| DigestDaily.StableSortSameKey | scripts/digest_daily.py:177 | Sorting with keys that agree on every item gives the same list. |
| DigestDaily.EmitActions | scripts/digest_daily.py:195-210 | Appends exactly the Actions part of the chosen view (grouped or flat). |
| DigestDaily.EmitSections | scripts/digest_daily.py:192-214 | Appends the sections in the order Summary, Decisions, Actions, Risks, Dependencies, Notes. |
| DigestDaily.ReadLog | scripts/digest_daily.py:141-164 | After the one log, `collected` and `action_items` are what the aggregate script builds from that log alone. |
| DigestDaily.Daily | scripts/digest_daily.py:133-217 | The file is the no-log note when the day's log is missing, else the digest of that log. |
| DigestDaily.DailyStartsWithTitle | scripts/digest_daily.py:133-217 | Either way the file starts with the title line. |
| DigestDaily.ActionsSortedPermutation | scripts/digest_daily.py:177 | The Actions list holds every action item exactly once, sorted by the chosen key; equal keys keep the order the log gave them. |
| DigestDaily.DefaultGroupedInOrder | scripts/digest_daily.py:195-210 | Under the default sort the grouped view lists the same lines, in the same order, as the flat view, split under bucket headings. |
| DigestDaily.GroupedPermutation | scripts/digest_daily.py:195-206 | For every `--sort-actions` key, the grouped view files each sorted item under the bucket of its own level, and the four buckets together hold every action item of the log exactly once. |
| DigestRender.NonEmpty | scripts/digest_aggregate.py:176 | At most the items given, each non-empty. |
| DigestRender.Spaced | scripts/digest_aggregate.py:180-182 | Twice as many lines as entries: each entry, then an empty line. |
| DigestRender.BlockLinesShape | scripts/digest_aggregate.py:175-182 | A section with entries gets its heading and every entry, in order; one without gets nothing. |
| DigestRender.KeepNonEmpty | scripts/digest_aggregate.py:176 | Returns the non-empty items, in order. |
| DigestRender.EmitSpaced | scripts/digest_aggregate.py:180-182 | Appends each entry followed by an empty line. |
| DigestRender.EmitBlock | scripts/digest_aggregate.py:175-182 | Appends the section's heading and spaced entries, or nothing when no entry is non-empty. |
| DigestRender.Lines | scripts/digest_aggregate.py:191-194 | One line per item, in order, each the line of its item. |
| DigestRender.EmitFlat | scripts/digest_aggregate.py:207-213 | Appends one line per item, then an empty line. |
| DigestRender.Bucket | scripts/digest_aggregate.py:198-201 | A bucket holds at most the items given, each of the bucket's own level. |
| DigestRender.FillBuckets | scripts/digest_aggregate.py:198-201 | Every one of the four buckets holds the lines of its own items, in list order. |
| DigestRender.AllBucketsPermutation | scripts/digest_aggregate.py:198-201 | Whatever the order of the items, the four buckets together hold every item exactly as often as the list does. |
| DigestRender.BucketCount | scripts/digest_aggregate.py:198-201 | A bucket holds every item of its level as often as the list does, and no item of another level. |
| DigestRender.WriteBucket | scripts/digest_aggregate.py:202-206 | Appends the bucket's heading, its lines and an empty line, or nothing when it is empty. |
| DigestRender.WriteBuckets | scripts/digest_aggregate.py:202-206 | Appends the four buckets in the order high, medium, low, other. |
| DigestRender.EmitBuckets | scripts/digest_aggregate.py:196-206 | Appends the grouped Actions lines: the buckets filled, then written out. |
| DigestRender.BucketsInRankOrder | scripts/digest_aggregate.py:196-206 | Items whose ranks are in order, each carrying the rank its label stands for, are exactly their buckets laid end to end: the grouped view lists the same items in the same order as the flat one. |
| DigestRender.GroupedInSortedOrder | scripts/digest_aggregate.py:199-206 | After sorting by priority, the four buckets' lines laid end to end are the sorted list's lines: the grouped view drops no item, repeats none and keeps the flat order. |
| DigestRender.FinishEnds | scripts/digest_aggregate.py:220 | The file ends in exactly one newline, with no whitespace before it. |
| DigestRender.FinishStarts | scripts/digest_aggregate.py:220 | The file starts with the first line, trailing blanks aside, when that line is not blank. |
| DigestRender.FinishShape | scripts/digest_aggregate.py:220 | The file ends in exactly one newline, with no whitespace before it, and starts with the first line, trailing blanks aside, when that line is not blank. |
| Sections.AllInOrder | scripts/digest_aggregate.py:6 | Every section name is in `SECTION_ORDER`. |
| PostDigest.ReadEnvWebhook | post_digest.py:25-31 | Accepts exactly a set value whose strip begins with `https://hooks.slack.com/services/`, and returns that strip; otherwise the error says whether the value was missing or blank, or not a webhook URL. |
| PostDigest.WebhookAccepted | post_digest.py:25-31 | An accepted URL has no surrounding whitespace, begins with the webhook prefix, and is accepted unchanged when read again. |
| PostDigest.Chunks | post_digest.py:56-62 | One posted chunk per group. |
| PostDigest.ChunkTextLoop | post_digest.py:47-63 | The loop returns `ChunkText(md, limit)`, the grouping that `ChunkTextIs` describes. |
| PostDigest.LoopStep | post_digest.py:53-60 | One turn of the loop: the piece `ps[i]` joins the open group or closes it and opens its own. |
| PostDigest.ChunksClosed | post_digest.py:61-62 | Closing the open group completes the chunk list. |
| PostDigest.GroupsFlatten | post_digest.py:53-62 | Every piece lies in exactly one group, in the original order. |
| PostDigest.GroupsNonEmpty | post_digest.py:53-62 | No group is empty, and there are groups exactly when there are pieces. |
| PostDigest.GroupsFit | post_digest.py:55-60 | A group of two or more pieces fits in `limit`: a piece joins a group only when the sum stays within it. |
| PostDigest.GroupsCut | post_digest.py:55-57 | Where one group ends and the next begins, the first piece of the next would have pushed the earlier group past `limit`. |
| PostDigest.PiecesCover | post_digest.py:53-54 | The pieces laid end to end are the text plus "\n\n". |
| PostDigest.ChunkTextIs | post_digest.py:47-63 | What `chunk_text` promises: the text itself when it fits; otherwise at least one chunk, each the right-stripped concatenation of a non-empty group of consecutive paragraphs (each followed by "\n\n"), the groups laid end to end giving back the text plus "\n\n", every group of two or more paragraphs within `limit`, and each cut made where the next paragraph would have overflowed. |
| PostDigest.ChunkFits | post_digest.py:47-63 | A chunk made of two or more paragraphs is at most `limit` long. |
| WeeklyWindow.WindowDays | weekly_digest.py:35-37 | Both dates of the window, when it exists, are valid dates. |
| WeeklyWindow.WindowDaysAre | weekly_digest.py:35-37 | The window exists unless it would start before 0001-01-01; then its days are the previous Monday and the day six later. |
| WeeklyWindow.PreviousWeek | weekly_digest.py:35-37 | The previous Monday is a Monday, the day six later a Sunday, and that Sunday lies one to seven days (the weekday of day `n` plus one) before day `n`. |
| WeeklyWindow.WindowWeek | weekly_digest.py:35-37 | The window runs from a Monday to the Sunday six days later, and ends one to seven days (the weekday of `today` plus one) before `today`. |
| WeeklyWindow.LastWeekWindowIs | weekly_digest.py:30-38 | The window exists unless it would start before 0001-01-01; then both strings read back as dates: the start is a Monday, the end the Sunday six days later, the end lies one to seven days before `today` (its weekday plus one), and the start is one week before the Monday of the week that holds `today`. |
| LogText.FixMojibake | scripts/digest_aggregate.py:35-38 | Returns `Repaired(s)`: the seven table replacements applied one after another, in table order. |
| LogText.ApplyFixesAbsent | scripts/digest_aggregate.py:30-33 | Each table value is one character that is not the lead byte of any key. |
| LogText.RepairedUnchanged | scripts/digest_aggregate.py:35-38 | Text without the lead character `â` of every key comes back unchanged. |
| LogText.TableShape | scripts/digest_aggregate.py:30-33 | The table's keys are three characters each and pairwise different; its values are single characters. |
| LogText.KeyRepaired | scripts/digest_aggregate.py:35-38 | A string that is exactly one key `fixes[i]` becomes that key's value: the keys are distinct and of one length, and the values shorter. |
| LogText.RepairedKeys | scripts/digest_aggregate.py:35-38 | Each key, on its own, becomes its punctuation mark. |
| LogText.RepairedNotIdempotent | scripts/digest_aggregate.py:35-38 | Exhibits the text `â€â€œ`: one repair gives `â€“`, a second repair gives an en dash, so repairing is not idempotent. |
| LogText.RepairedShrinks | scripts/digest_aggregate.py:35-38 | One repair changes nothing or shortens the text. |
| LogText.RepairedFully | scripts/digest_aggregate.py:35-38 | The corrected repair: its result is a text the single repair leaves unchanged. |
| LogText.RepairedFullyIdempotent | scripts/digest_aggregate.py:35-38 | The corrected repair is idempotent. |
| LogText.RepairedFullyStable | scripts/digest_aggregate.py:35-38 | The corrected repair agrees with the single repair wherever the single repair is already stable. |
| LogText.RepairedFullyNested | scripts/digest_aggregate.py:35-38 | The corrected repair turns the nested sample `â€â€œ` into one en dash. |
| LogText.HeadingAt | scripts/digest_aggregate.py:27 | A match starts at the given place and ends at a line end; its name starts with a letter and holds no `#` and no newline. |
| LogText.HeadingsFrom | scripts/digest_aggregate.py:46 | The matches are in order, do not overlap, and lie at or after the search start. |
| LogText.NormalizeHeadingWord | scripts/digest_aggregate.py:40-41 | A heading whose first word is `w` followed by trailing punctuation normalises to `w` in lower case. |
| LogText.HeadingDepthTwo | scripts/digest_aggregate.py:27 | A heading line of depth two is a match whose group is the rest of the line. |
| LogText.HeadingDepthThree | scripts/digest_aggregate.py:27 | A heading line of depth three is a match, its trailing colon kept in the group. |
| LogText.HeadingDepthOne | scripts/digest_aggregate.py:27 | A line with a single `#` is not a heading. |
| LogText.HeadingDepthSeven | scripts/digest_aggregate.py:27 | A line with seven `#` is not a heading. |
| LogText.NormalizeHeadingPlain | scripts/digest_aggregate.py:40-41 | `Summary` normalises to `summary`. |
| LogText.NormalizeHeadingColon | scripts/digest_aggregate.py:40-41 | `Summary:` normalises to `summary`. |
| LogText.NormalizeHeadingUpper | scripts/digest_aggregate.py:40-41 | `SUMMARY -` normalises to `summary`. |
| LogText.NormalizeHeadingDash | scripts/digest_aggregate.py:40-41 | `Summary — notes` normalises to `summary`. |
| LogText.CanonicalIn | scripts/digest_aggregate.py:55-58 | A heading names a section exactly when its normalised form is that section's name lower-cased; otherwise it names none. |
| LogText.Entries | scripts/digest_aggregate.py:49-54 | One entry per heading, in order: the section it names, if any, and its body. |
| LogText.LastNamed | scripts/digest_aggregate.py:55-58 | The index found is the last of the entries naming the section, or there is none. |
| LogText.OverwrittenLastWins | scripts/digest_aggregate.py:55-58 | Last wins: a section is present exactly when some heading names it, and it holds the body of the last heading that does. |
| LogText.SlicedSectionsPresent | scripts/digest_aggregate.py:43-59 | A section is present exactly when a heading of the prepared text (CRLF turned to LF, mojibake repaired) names it. |
| LogText.SlicedSectionsLastWins | scripts/digest_aggregate.py:43-59 | A present section holds the stripped body of the last heading naming it, up to the next heading of any name. |
| LogText.OverwrittenHas | scripts/digest_aggregate.py:55-58 | A section is present once some entry names it. |
| LogText.OverwrittenLast | scripts/digest_aggregate.py:55-58 | A section holds the body of the last entry naming it. |
| LogText.AssignSections | scripts/digest_aggregate.py:49-58 | The loop's dictionary is `Overwritten` of all the entries: each section holds the body of the last heading that names it. |
| LogText.SliceSections | scripts/digest_aggregate.py:43-59 | Returns `SlicedSections(text)`, characterised by `SlicedSectionsPresent` and `SlicedSectionsLastWins`. |
| LogText.MarkerEnd | scripts/digest_aggregate.py:13-21 | A marker found at a position ends after it, within the text. |
| LogText.LeadToken | scripts/digest_aggregate.py:23-25 | A match of the lead token is non-empty and lies within the text. |
| LogText.CollectBullets | scripts/digest_aggregate.py:67-77 | Returns the stripped lines of the block that a bullet pattern matches, in order. |
| LogText.BulletsStripped | scripts/digest_aggregate.py:67-77 | Every collected bullet is non-empty and already stripped. |
| LogText.MarkerEndOf | scripts/digest_aggregate.py:13-21 | A marker string found at `b` is recognised as a marker ending where it ends. |
| LogText.MarkerHead | scripts/digest_aggregate.py:13-21 | A marker starts with neither whitespace nor a backslash. |
| LogText.LeadTokenAt | scripts/digest_aggregate.py:23-25 | `LEAD_TOKEN_RE` described position by position: indentation up to `a`, an optional backslash, a marker from `b` to `m` and whitespace from `m` to `e`. |
| LogText.CleanItemTextMarker | scripts/digest_aggregate.py:79-82 | Every marker style, escaped or not and however indented, yields the same content. |
| LogText.ItemLeadToken | scripts/digest_aggregate.py:79-82 | The lead token of a bullet line ends where its content starts. |
| LogText.CleanItemTextAt | scripts/digest_aggregate.py:79-82 | Once the lead token ends at `e`, a clean remainder is the content. |
| LogText.DropEscapeIdempotent | scripts/digest_aggregate.py:89 | Dropping the escape twice drops nothing more. |
| LogText.DropEscapeExample | scripts/digest_aggregate.py:89 | The escaped bullet `\- item` becomes `- item`. |
| LogText.NormalizeBlockText | scripts/digest_aggregate.py:84-91 | Returns `NormalizedBlock(block)`: the repaired block's lines, escapes dropped, joined and stripped. |
| LogText.NormalizedBlockStripped | scripts/digest_aggregate.py:84-91 | The normalised block is already stripped: it neither starts nor ends with whitespace. |
| LogText.TagIn | scripts/digest_aggregate.py:94 | A tag found at a position is one of the tag words, written in any case between `[` and `]` there. |
| LogText.FirstTag | scripts/digest_aggregate.py:94 | The tag found is one of `high`, `medium`, `low`, `p0`, `p1`, `p2`. |
| LogText.DetectPriority | scripts/digest_aggregate.py:93-99 | No tag gives ("other", 3); `high` or `p0` gives ("high", 0); `medium` or `p1` gives ("medium", 1); `low` or `p2` gives ("low", 2). |
| LogText.DetectPriorityConsistent | scripts/digest_aggregate.py:93-99 | The label and the rank always agree, and the label is one of the four bucket names. |
| LogText.TagAt | scripts/digest_aggregate.py:94 | A tag found at a position is one of the tag words, and its closing `]` lies within the text. |
| LogText.StripPriorityTag | scripts/digest_aggregate.py:116-117 | What is left is a suffix of the text, never longer than it. |
| LogText.StripPriorityTagUntagged | scripts/digest_aggregate.py:116-117 | Text with no tag after its leading whitespace comes back unchanged. |
| LogText.StripPriorityTagOf | scripts/digest_aggregate.py:116-117 | Leading whitespace, `[`, a tag word in any ASCII case, `]` and the whitespace after it all go, and the rest comes back whole. |
| OwnerNames.LazyEnd | scripts/digest_aggregate.py:103-104 | The lazy group, when it matches, ends 1 to 40 characters past the capital, at a place where the tail matches. |
| OwnerNames.BracketAt | scripts/digest_aggregate.py:103-104 | A match at a `]` has its group start at a capital after the `]`. |
| OwnerNames.SearchBracket | scripts/digest_aggregate.py:108-111 | A match found lies after the search start and within the text. |
| OwnerNames.OwnerAt | scripts/digest_aggregate.py:105 | A match has its group inside the parentheses, free of `)`, and ends at a `)`. |
| OwnerNames.SearchOwner | scripts/digest_aggregate.py:108-111 | A match found lies at or after the search start and within the text. |
| OwnerNames.LastBoundary | scripts/digest_aggregate.py:112 | The end found is the last word boundary in the range; none is found only when there is no boundary in it. |
| OwnerNames.SecondWord | scripts/digest_aggregate.py:112 | The optional second word, when present, ends past the first word at a word boundary. |
| OwnerNames.CapitalisedAt | scripts/digest_aggregate.py:112 | A match starts with a capital at a word boundary, is at least two characters long, and ends at a word boundary. |
| OwnerNames.SearchCapitalised | scripts/digest_aggregate.py:112 | A match found starts with a capital, at or after the search start, and is at least two characters long. |
| OwnerNames.LazyEndClass | scripts/digest_aggregate.py:103-104 | The group the lazy search settles on holds only class characters. |
| OwnerNames.LazyEndEarliest | scripts/digest_aggregate.py:103-104 | The lazy search settles on the first end at which the tail matches. |
| OwnerNames.LazyEndFirst | scripts/digest_aggregate.py:103-104 | The lazy group stops at the first end, within 40 characters of the capital, after which the tail matches. |
| OwnerNames.LazyEndBlocked | scripts/digest_aggregate.py:103-104 | The lazy group fails when a character outside the class comes before any place where the tail matches. |
| OwnerNames.SearchBracketSkips | scripts/digest_aggregate.py:108-111 | Positions without a `]` are passed over. |
| OwnerNames.SearchOwnerSkips | scripts/digest_aggregate.py:108-111 | Positions without a `(` are passed over. |
| OwnerNames.ToMatchAt | scripts/digest_aggregate.py:103 | The first pattern matched position by position: the first `]` at `i`, blanks up to a capital at `j`, a group of `[\w.\- ]` up to `e` inside which the tail never matches, then ` to` and a non-word character or the end. |
| OwnerNames.ExtractNameFirst | scripts/digest_aggregate.py:107-111 | When the first pattern matches, its group, stripped, is the name. |
| OwnerNames.HyphenNoTail | scripts/digest_aggregate.py:103 | In `name - word` the tail does not match, unless the word is `to`. |
| OwnerNames.ToBlockedByDash | scripts/digest_aggregate.py:103 | The first pattern fails at a `]` whose word is followed by a blank and a long dash, since the dash is outside `[\w.\- ]`. |
| OwnerNames.BracketAtIs | scripts/digest_aggregate.py:103-104 | The first or second pattern at a `]` followed by blanks, a capital at `j` and a lazy group ending at `e`. |
| OwnerNames.SearchBracketAt | scripts/digest_aggregate.py:108-111 | The search stops at the first `]` where the pattern matches. |
| OwnerNames.SearchBracketOnly | scripts/digest_aggregate.py:108-111 | The search fails when the pattern fails at the only `]`. |
| OwnerNames.DashDefeatsTo | scripts/digest_aggregate.py:103-104 | A `]` followed by blanks, a word from `j` to `e`, a blank, a long dash and a blank, as the only `]`: the first pattern fails. |
| OwnerNames.DashMatchFound | scripts/digest_aggregate.py:104 | The same line matches the second pattern at its `]`. |
| OwnerNames.OwnerAtIs | scripts/digest_aggregate.py:105 | The search for the third pattern stops at the first `(` when it opens `(owner: ` followed by a non-blank. |
| OwnerNames.OwnerMatchAt | scripts/digest_aggregate.py:105 | The third pattern matched position by position, the first two failing: no `]` at all, the first `(` at `i` opening `(owner: `, and a name from `i + 8` to the `)` at `c`. |
| OwnerNames.ToWordAt | scripts/digest_aggregate.py:103 | The owner of a line with the first `]` at `i`, blanks up to `j` and one word from `j` to `e` followed by ` to` and a word boundary. |
| OwnerNames.ExtractNameTo | scripts/digest_aggregate.py:107-111 | A single word between `]` and ` to` is the owner: `[high] Alex to ship the release` gives `Alex`. |
| OwnerNames.HyphenAt | scripts/digest_aggregate.py:103 | The owner of a line with the first `]` at `i`, blanks up to `j`, a word from `j` to `m`, ` - `, a word other than `to` up to `e`, then ` to` and a word boundary: both words and the hyphen. |
| OwnerNames.HyphenGroup | scripts/digest_aggregate.py:103 | The group of such a line is `name - word`. |
| OwnerNames.ExtractNameHyphen | scripts/digest_aggregate.py:107-111 | An ASCII hyphen is inside `[\w.\- ]`, so the first pattern reads on past ` - ` to a later ` to`: the owner is both words and the hyphen between them. |
| OwnerNames.ExtractNameSecond | scripts/digest_aggregate.py:107-111 | When the first pattern fails and the second matches, its group, stripped, is the name. |
| OwnerNames.DashAt | scripts/digest_aggregate.py:104 | The owner of a line with its only `]` at `i`, blanks up to `j`, one word from `j` to `e`, then a blank, a long dash and a blank. |
| OwnerNames.ExtractNameDash | scripts/digest_aggregate.py:107-111 | A single word between `]` and a long dash is the owner: `[p1] Priya – review the plan` gives `Priya`, provided no later `]` starts a match of the first pattern. |
| OwnerNames.ExtractNameOwner | scripts/digest_aggregate.py:107-111 | With no `]` in the line, an `(owner: …)` note names the owner. |
| OwnerNames.ExtractNameInfix | scripts/digest_aggregate.py:107-113 | The name is always a piece of the text. |
| OwnerNames.ExtractNameHyphenReadsOn | scripts/digest_aggregate.py:107-111 | `[p1] Priya - go to X` gives `Priya - go`, not `Priya`. |
| SortActions.LastNewline | scripts/sort_actions.py:12 | The position found is the last `\n` in the range; there is none only when the range holds no `\n`. |
| SortActions.LineEnd | scripts/sort_actions.py:12 | The end found is the furthest place where `\s*$` can stop; none is found only when `\s*$` cannot stop anywhere. |
| SortActions.HeadingEnd | scripts/sort_actions.py:12 | A heading match from a position ends at least nine characters later, within the text. |
| SortActions.FindHeading | scripts/sort_actions.py:12 | A match found starts at or after the search start and ends at least nine characters later, within the text. |
| SortActions.FindHeadingLeftmost | scripts/sort_actions.py:12 | The search finds the leftmost heading match from `p` on, and finds none only when there is none. |
| SortActions.FindNext | scripts/sort_actions.py:16 | The place found is the leftmost next heading from the start; none is found only when there is none. |
| SortActions.ActionsBlock | scripts/sort_actions.py:12-18 | The block's bounds are in order and within the text. |
| SortActions.Rank | scripts/sort_actions.py:24-32 | The rank is 0, 1, 2 or 3. |
| SortActions.NoHeadingUntouched | scripts/sort_actions.py:12-14 | There is no Actions block exactly when no line is a `## Actions` heading, and then the text is left as it is. |
| SortActions.BlockStart | scripts/sort_actions.py:15 | The block starts where the leftmost `## Actions` heading match ends. |
| SortActions.BlockEnd | scripts/sort_actions.py:16-17 | The block stops at the first `##` heading after its start (a line `##`, whitespace, then text, so `###` does not count), or at the end of the text. |
| SortActions.BlockKept | scripts/sort_actions.py:41 | The text before and after the block is kept verbatim; the block becomes a `\n`, the reordered lines with their outer newlines stripped, and a `\n`. |
| SortActions.OthersAreNonBullets | scripts/sort_actions.py:21-22 | Every line of the block is a bullet or one of the others, never both, and the others keep their order: `ln not in bullets` is the same as "is not a bullet line". |
| SortActions.SortedBullets | scripts/sort_actions.py:34 | The bullets come first, stably sorted by rank: in rank order, the same lines, lines of equal rank in their original order, and all of them bullet lines. |
| SortActions.OthersLast | scripts/sort_actions.py:35-39 | The other lines come last, in their original order, and none of them is a bullet line. |
| SortActions.SeparatorRule | scripts/sort_actions.py:37 | Between the bullets and the other lines there is one blank line exactly when there are bullets, there are other lines, and the first other line is not blank; otherwise nothing. |
| SortActions.LinesKept | scripts/sort_actions.py:20-39 | No line of the block is lost or made up: the reordered lines are the block's lines plus the separator, if any. |
| SortActions.BulletsShare | scripts/sort_actions.py:20-22 | The bullet lines and the other lines share out the block's lines. |
| SortActions.RankIgnoresCase | scripts/sort_actions.py:25 | The rank ignores letter case. |
| SortActions.BlockExact | scripts/sort_actions.py:41 | When the reordered lines neither start nor end with an empty line, stripping the outer newlines changes nothing: the block is exactly the reordered lines joined with `\n`. |
| LegacyDigest.ParseActionFields | team_email_digest.py:118-130 | A line the pattern does not match is kept whole as the title; the optional keys appear only with non-empty values: the owner stripped, the due date as written or as a real ISO date, the priority lower-cased. |
| LegacyDigest.ParseActions | team_email_digest.py:112-131 | Returns `ParsedActions(lines, kv)`: the loop's list, one parsed action per line that is not empty once cleaned. |
| LegacyDigest.ParsedActionsAre | team_email_digest.py:112-131 | The actions are, one for one, the lines that are not empty once cleaned, each parsed. |
| LegacyDigest.Fresh | team_email_digest.py:142-149 | All six keys are present, each with an empty list. |
| LegacyDigest.Add | team_email_digest.py:164 | All six keys stay present. |
| LegacyDigest.Step | team_email_digest.py:153-170 | All six keys stay present after any line. |
| LegacyDigest.Run | team_email_digest.py:152-170 | All six keys stay present after the loop. |
| LegacyDigest.Kinds | team_email_digest.py:152-157 | One kind per line. |
| LegacyDigest.LinesOfText | team_email_digest.py:152 | The pieces of `splitlines()` hold no newline. |
| LegacyDigest.Deduped | team_email_digest.py:172-173 | All six keys stay present. |
| LegacyDigest.Sectioned | team_email_digest.py:135-174 | All six keys are present. |
| LegacyDigest.ParseSections | team_email_digest.py:135-174 | Returns `Sectioned(text)`, the scan followed by de-duplication of each list. |
| LegacyDigest.ScanLines | team_email_digest.py:152-170 | Returns the lists of `Run` over the classified lines. |
| LegacyDigest.ScanLine | team_email_digest.py:153-170 | One line of the loop does what `Step` does on that line's classification: blank lines skipped, a header switches the current section and files non-empty trailing content, other text goes to the current section or to Summary before any header. |
| LegacyDigest.DedupeAll | team_email_digest.py:172-173 | Returns each list passed through `_unique_preserve_order`. |
| LegacyDigest.ClassifyHeader | team_email_digest.py:157-165 | Only `oq` is a header: the lazy header pattern captures two letters, and no other alias has two. |
| LegacyDigest.SectionedOnlyTwo | team_email_digest.py:135-174 | `parse_sections` always leaves Decisions, Actions, Risks and Dependencies empty. |
| LegacyDigest.SectionedClean | team_email_digest.py:135-174 | Each list of `parse_sections` holds distinct, non-empty, single-spaced lines. |
| LegacyDigest.UniqueSingleSpaced | team_email_digest.py:172-173 | De-duplicating single-spaced lines keeps them single-spaced. |
| LegacyDigest.BlankContent | team_email_digest.py:154-155 | A blank line has no content. |
| LegacyDigest.BeforeHeaders | team_email_digest.py:140 | Until the first header, every line that is not empty once cleaned goes to Summary, in order, and no section is current. |
| LegacyDigest.BuildDigestOnlyTwo | team_email_digest.py:176-190 | Whatever the text, the digest has no actions, decisions, risks or dependencies. |
| LegacyDigest.RenderMarkdown | team_email_digest.py:194-232 | Returns `Markdown(d)`: the pieces in fixed section order, joined, right-stripped, and ended by one newline. |
| LegacyDigest.MarkdownShape | team_email_digest.py:194-232 | The document opens with the Summary heading and ends with exactly one newline, with no whitespace before it. |
| LegacyDigest.BuiltMarkdownEnds | team_email_digest.py:221-225 | A digest from `build_digest` always renders its Actions as a dash: the document ends with the Actions heading and `—`. |
| LegacyDigest.DashTail | team_email_digest.py:221-232 | Pieces ending in the Actions heading and a dash render to a document ending in them. |
| LegacyDigest.SummaryOneLine | team_email_digest.py:195-207 | With at most one Summary item and no newline in it, the Summary block is a single line. |
| LegacyDigest.BuiltSummaryOneLine | team_email_digest.py:195-207 | Lines that `parse_sections` produced hold no newline, so a built digest with at most one Summary item shows it on one line. |
| LegacyText.KeyFrom | team_email_digest.py:61-63 | A key found has the name among its aliases. |
| LegacyText.AliasesDisjoint | team_email_digest.py:34-41 | No alias belongs to two keys. |
| LegacyText.SectionKeyIs | team_email_digest.py:59-64 | A name has a key exactly when its stripped, lower-cased form is one of that key's aliases. |
| LegacyText.KeyFromFinds | team_email_digest.py:61-63 | The loop finds a key whose alias list holds the name. |
| LegacyText.SectionKeyToDos | team_email_digest.py:37 | `"To-Dos"` names the Actions section. |
| LegacyText.GroupStart | team_email_digest.py:44 | The group's start lies within the line. |
| LegacyText.HeaderGroups | team_email_digest.py:44 | The header group, when the pattern matches, is two characters: a letter, then a header character; the trailing group is a suffix of the line. |
| LegacyText.MatchHeaderIs | team_email_digest.py:66-72 | Since the header group is two characters long, the only alias it can spell is `oq`: a line switches section exactly when its header group reads `oq` in any case, and then always to Open Questions. |
| LegacyText.HeaderKey | team_email_digest.py:66-72 | The key a two-character header group names. |
| LegacyText.NoKey | team_email_digest.py:59-64 | A name of at most two characters other than `oq` names no section. |
| LegacyText.ShortAlias | team_email_digest.py:34-41 | The one alias of at most two characters. |
| LegacyText.HashHeading | team_email_digest.py:44 | A Markdown heading is read by its first two letters only. |
| LegacyText.SummaryHeadingIgnored | team_email_digest.py:66-72 | The docstring's `## Summary` is not a header: its group is `Su`. |
| LegacyText.PlainHeader | team_email_digest.py:66-72 | `XY: text` names a section only when `XY` is `oq` in any case, and then carries the text. |
| LegacyText.OpenQuestionsHeader | team_email_digest.py:66-72 | `OQ: who signs off?` opens Open Questions with the trailing text. |
| LegacyText.HeaderRun | team_email_digest.py:44 | The run found holds only header characters and stops at the first other character or the end of the line. |
| LegacyText.GreedyGroupsAt | team_email_digest.py:44 | The greedy groups of a line whose group starts at `j`, whose run of header characters ends at `e` and whose trailing text starts at `b`. |
| LegacyText.HeaderOfGroups | team_email_digest.py:66-72 | Groups whose header names `k` make a header line of `k`. |
| LegacyText.TitleKey | team_email_digest.py:59-64 | A clean title spelling an alias of `k`, in any case, names `k`. |
| LegacyText.GreedyHashHeading | team_email_digest.py:8-9 | With the greedy group, `## Title` opens the section the title names, as the module's docstring promises. |
| LegacyText.GreedyColonHeader | team_email_digest.py:138 | With the greedy group, `Title: text` opens the section the title names and carries the text. |
| LegacyText.GreedySummaryHeading | team_email_digest.py:8-9 | Where the pattern as written reads `## Summary` as no header at all, the greedy group reads it as the Summary heading. |
| LegacyText.MarkerEnd | team_email_digest.py:47 | A marker found at a position ends after it, within the text. |
| LegacyText.BulletEnd | team_email_digest.py:47 | A match found ends within the line. |
| LegacyText.StripBulletMarker | team_email_digest.py:74-75 | Every marker style, however indented and spaced, yields the same content. |
| LegacyText.MarkerNotSpace | team_email_digest.py:47 | A marker starts with neither whitespace nor the end of the text. |
| LegacyText.MarkerEndOf | team_email_digest.py:47 | A marker found at `b` ends where it ends. |
| LegacyText.BoxEmpty | team_email_digest.py:47 | `[`, whitespace, `]`. |
| LegacyText.BoxTicked | team_email_digest.py:47 | `[`, whitespace, `x`, whitespace, `]`. |
| LegacyText.StripBulletPlain | team_email_digest.py:74-75 | A line whose first visible character is a letter has no marker: it is only stripped. |
| LegacyText.CollapseFrom | team_email_digest.py:78 | The result is empty only for empty input, starts with a space exactly when the input starts with whitespace, and holds no whitespace but single spaces. |
| LegacyText.NormSpaceSingle | team_email_digest.py:77-78 | The result of `_norm_space` has no leading, trailing or doubled spaces and no other whitespace. |
| LegacyText.NormSpaceFixed | team_email_digest.py:77-78 | Single-spaced text is left as it is. |
| LegacyText.NormSpaceIdempotent | team_email_digest.py:77-78 | `_norm_space` twice changes nothing more. |
| LegacyText.CollapseVisible | team_email_digest.py:78 | Collapsing keeps the visible characters and their order. |
| LegacyText.NormSpaceVisible | team_email_digest.py:77-78 | `_norm_space` keeps every visible character, in order. |
| LegacyText.StripVisible | team_email_digest.py:78 | `strip` removes no visible character. |
| LegacyText.UniquePreserveOrder | team_email_digest.py:80-88 | Returns `Unique(items)`; the loop keeps `seen` equal to the set of strings in `out`. |
| LegacyText.UniqueMembers | team_email_digest.py:80-88 | A string is kept exactly when it is the non-empty strip of an item. |
| LegacyText.UniqueDistinct | team_email_digest.py:80-88 | The kept strings are distinct, non-empty and already stripped. |
| LegacyText.UniqueOrder | team_email_digest.py:80-88 | Strings are kept in the order of their first occurrence: wherever a later one occurs, an earlier one has occurred before. |
| LegacyText.UniqueFixed | team_email_digest.py:80-88 | Distinct, stripped, non-empty strings are kept as they are. |
| LegacyText.UniqueIdempotent | team_email_digest.py:80-88 | De-duplicating twice changes nothing more. |
| LegacyText.SlashParts | team_email_digest.py:98 | The three groups, when the text matches, are one or two, one or two, and two to four digits. |
| LegacyText.NormalizeDateResult | team_email_digest.py:90-110 | The result is the stripped input or a real date in ISO form. |
| LegacyText.FullYearWindow | team_email_digest.py:105-106 | Two-digit years fall in 1970..2069, and every year of that window comes back from its last two digits. |
| LegacyText.NormalizeSlashDate | team_email_digest.py:98-108 | A date written `M/D/YY` within 1970..2069, or `M/D/YYYY` from year 100 on, normalises to its ISO form. |
| LegacyText.NormalizeDateOf | team_email_digest.py:98-108 | A text of the shape `M/D/Y` whose groups name a real date normalises to that date. |
| LegacyText.NormalizeImpossibleDate | team_email_digest.py:107-110 | An impossible date such as February 30 comes back as written. |
| LegacyText.NormalizeDateInvalid | team_email_digest.py:107-110 | A text of the shape `M/D/Y` whose groups name no real date is kept. |
| PackagedKpis.AllActionsAggregated | src/team_digest/team_email_digest.py:208-214 | The actions of all days, day by day, are the Actions list that `aggregate_sections` builds. |
| PackagedKpis.AddCounts | src/team_digest/team_email_digest.py:290 | Each priority count, and the total, of the sum is the sum of the two counts. |
| PackagedKpis.SumTotals | src/team_digest/team_email_digest.py:288-290 | The loop's `totals` is `SumCounts(docs)`, the priority counts summed over the days. |
| PackagedKpis.ParsedWellCounted | src/team_digest/team_email_digest.py:179-181 | Days read by `parse_day_doc` are well counted. |
| PackagedKpis.SumCountsActions | src/team_digest/team_email_digest.py:287-298 | With well-counted days, each KPI priority count is the number of merged actions of that priority, and the KPI total is the number of actions the counts line reports. |
| PackagedKpis.TallyByKeys | src/team_digest/team_email_digest.py:301 | The `Counter` has a positive count for exactly the values `f` takes. |
| PackagedKpis.OwnersKpi | src/team_digest/team_email_digest.py:291-303 | The Owners KPI is the number of distinct owners `infer_owner` finds among the merged actions. |
| PackagedKpis.CountOwners | src/team_digest/team_email_digest.py:291-294 | The loop's `owners` is `OwnerTally(docs)`, the count of each owner over all actions. |
| PackagedKpis.RowOf | src/team_digest/team_email_digest.py:308-312 | An entry found belongs to the owner; none is found only when no entry does. |
| PackagedKpis.RowOwners | src/team_digest/team_email_digest.py:308-312 | One owner per entry, in order. |
| PackagedKpis.FirstSeenShape | src/team_digest/team_email_digest.py:308-312 | `FirstSeen` lists every value of `owner` over `xs`, each once. |
| PackagedKpis.BreakdownByShape | src/team_digest/team_email_digest.py:308-312 | The breakdown has one entry per owner, in order of first appearance, and each entry counts exactly its owner's items by priority. |
| PackagedKpis.TallyPrioIsTally | src/team_digest/team_email_digest.py:312 | `TallyPrio` with `infer_priority` is the `Counter` `parse_day_doc` builds. |
| PackagedKpis.OwnerRowsShape | src/team_digest/team_email_digest.py:308-312 | `ob` has one entry per owner of the merged actions, each once and in order of first appearance, and each entry is the priority `Counter` of that owner's actions. |
| PackagedKpis.BuildBreakdown | src/team_digest/team_email_digest.py:308-312 | The loop's `ob` is `OwnerRows(docs)`, characterised by `OwnerRowsShape`. |
| PackagedKpis.RankKeyLess | src/team_digest/team_email_digest.py:314 | The negated key is smaller exactly when the tuple is larger. |
| PackagedKpis.SortedRanks | src/team_digest/team_email_digest.py:314 | In a list sorted by `RankKey` no entry outranks one before it. |
| PackagedKpis.RankedOrder | src/team_digest/team_email_digest.py:314 | The ranking holds every entry once, no entry outranks an earlier one, and entries with equal tuples keep their order in `ob`, which is the order their owners first appear. |
| PackagedKpis.RowLines | src/team_digest/team_email_digest.py:319-321 | One table line per entry, in order, each the line of its entry. |
| PackagedKpis.EmitRows | src/team_digest/team_email_digest.py:319-321 | Appends one table line per ranked entry, in order. |
| PackagedLogs.DateRxSearch | src/team_digest/team_email_digest.py:48 | A date group found is shaped `YYYY-MM-DD`. |
| PackagedLogs.DateRxSearchMatches | src/team_digest/team_email_digest.py:48 | The search finds a match exactly when the pattern matches somewhere, and then returns that match's date group. |
| PackagedLogs.DateRxSearchPlain | src/team_digest/team_email_digest.py:48 | A name such as `notes-2024-05-06.md` carries its date. |
| PackagedLogs.DateOf | src/team_digest/team_email_digest.py:77-80 | A name's date, when it has one, is a valid date. |
| PackagedLogs.ListLogsInRange | src/team_digest/team_email_digest.py:74-84 | Returns `LogsInRange(names, start, end)`, characterised by `LogsInRangeRaises` and `LogsInRangeOk`. |
| PackagedLogs.ScannedErrStays | src/team_digest/team_email_digest.py:76-82 | Once the loop has raised, the rest of the listing does not matter. |
| PackagedLogs.ScannedIs | src/team_digest/team_email_digest.py:76-82 | The scan raises exactly when some name carries a match that is not a date; otherwise it keeps, in order, the dated names inside the window, each with its date. |
| PackagedLogs.LogsInRangeRaises | src/team_digest/team_email_digest.py:74-84 | `list_logs_in_range` raises ValueError exactly when a listed name matches `DATE_RX` with digits that are no date, even one outside the window. |
| PackagedLogs.LogsInRangeOk | src/team_digest/team_email_digest.py:74-84 | When it returns, `list_logs_in_range` lists each wanted name as often as the directory holds it and nothing else, in ascending date order. |
| PackagedLogs.LogsInRangeNames | src/team_digest/team_email_digest.py:74-84 | The names returned are the wanted names of the directory. |
| PackagedLogs.LogsInRangeOrdered | src/team_digest/team_email_digest.py:83-84 | The names returned are in ascending date order. |
| PackagedLogs.MonthEnd | src/team_digest/team_email_digest.py:97-106 | The month's end is a valid date. |
| PackagedLogs.MonthEndIsLastDay | src/team_digest/team_email_digest.py:100 | The day before the first of the next month is the last day of the month. |
| PackagedLogs.LastDayOrdinal | src/team_digest/team_email_digest.py:100 | The next day of the last day of a month other than December is the first of the next month. |
| PackagedLogs.MonthWindowShape | src/team_digest/team_email_digest.py:86-108 | The window starts on the 1st of the month and ends in the same month, on its last day or, month to date, on today; it is never empty. |
| PackagedParse.H2At | src/team_digest/team_email_digest.py:49 | A match starts at the given place and ends at a line end within the text. |
| PackagedParse.GroupEnd | src/team_digest/team_email_digest.py:49 | `\s*$` ends at a line end at or after the group's line end. |
| PackagedParse.H2sFrom | src/team_digest/team_email_digest.py:115 | The matches are in order, do not overlap, and lie at or after the search start. |
| PackagedParse.H2Padded | src/team_digest/team_email_digest.py:49 | A `##` line whose name is padded by whitespace is a match whose group is the bare name. |
| PackagedParse.H2Deeper | src/team_digest/team_email_digest.py:49 | A `###` line is a match too, and its group keeps the third `#`. |
| PackagedParse.H2NextLine | src/team_digest/team_email_digest.py:49 | A `##` with nothing after it on its line takes the next line as its group. |
| PackagedParse.ExactSection | src/team_digest/team_email_digest.py:127 | A name names a section exactly when it is that section's title, letter for letter. |
| PackagedParse.Named | src/team_digest/team_email_digest.py:123-127 | One lookup per match. |
| PackagedParse.LastNaming | src/team_digest/team_email_digest.py:122-129 | The index found is the last of the matches naming the section; none is found only when none names it. |
| PackagedParse.Assigned | src/team_digest/team_email_digest.py:122-129 | Every section is present, holding the body of its latest naming match, or its initial value. |
| PackagedParse.LatestStep | src/team_digest/team_email_digest.py:127-129 | One more match: the section it names takes its body, every other section keeps its value. |
| PackagedParse.Bodies | src/team_digest/team_email_digest.py:124-129 | One body per match, each the kept lines of the text up to the next match. |
| PackagedParse.ExtractedSections | src/team_digest/team_email_digest.py:110-130 | Every section is present. |
| PackagedParse.ExtractSections | src/team_digest/team_email_digest.py:110-130 | Returns `ExtractedSections(t)`, characterised by `ExtractedSectionAbsent` and `ExtractedSectionLastWins`. |
| PackagedParse.MatchEntry | src/team_digest/team_email_digest.py:123-129 | Returns the section match `i` names and the kept lines of its body. |
| PackagedParse.ExtractedSectionAbsent | src/team_digest/team_email_digest.py:110-130 | A section no `##` line names exactly holds no lines. |
| PackagedParse.ExtractedSectionLastWins | src/team_digest/team_email_digest.py:110-130 | A section holds the kept lines of the last `##` line whose stripped text is exactly its name; every `##` line, whatever its text, ends the body before it. |
| PackagedParse.KeptLinesClean | src/team_digest/team_email_digest.py:129 | Every kept line holds a non-space character, ends in one, and holds no line break. |
| PackagedParse.BulletMatch | src/team_digest/team_email_digest.py:50 | A group found is non-empty and starts and ends with a non-space character. |
| PackagedParse.BulletTextIsGroup | src/team_digest/team_email_digest.py:140 | The group already starts and ends with non-space characters, so `strip()` leaves it as it is. |
| PackagedParse.ExtractBullets | src/team_digest/team_email_digest.py:132-141 | Returns `Bullets(lines)`: the group of every bullet line, in order. |
| PackagedParse.BulletsClean | src/team_digest/team_email_digest.py:132-141 | Bullets are the texts of bullet lines only, one per line at most, each non-empty and stripped. |
| PackagedParse.BulletLine | src/team_digest/team_email_digest.py:50 | A line made of optional indentation, a `-` or `*`, whitespace and a text that starts and ends with non-space characters and holds no newline, followed by optional trailing whitespace, yields exactly that text. |
| PackagedParse.NotBullets | src/team_digest/team_email_digest.py:50 | The marker must be `-` or `*` and be followed by whitespace. |
| PackagedParse.TagAt | src/team_digest/team_email_digest.py:51 | A tag found at a position is a tag of that priority there; none is found only when no tag is there. |
| PackagedParse.FirstTag | src/team_digest/team_email_digest.py:144 | The position found is the leftmost tag from the start; none is found only when there is no tag. |
| PackagedParse.InferPriorityTagged | src/team_digest/team_email_digest.py:143-147 | The priority is that of the first tag in the text. |
| PackagedParse.TagsDiffer | src/team_digest/team_email_digest.py:51 | One position holds at most one tag. |
| PackagedParse.InferPriorityUntagged | src/team_digest/team_email_digest.py:143-147 | Text without a tag is `medium`. |
| PackagedParse.InferPriorityFirstWins | src/team_digest/team_email_digest.py:143-147 | The first tag wins, in any letter case and whatever follows it. |
| PackagedParse.InferPriorityDefault | src/team_digest/team_email_digest.py:143-147 | Text without a `[` is `medium`. |
| PackagedParse.RemoveTagsPlain | src/team_digest/team_email_digest.py:157 | Text without `[` holds no tag and loses nothing. |
| PackagedParse.RemoveLeadingTag | src/team_digest/team_email_digest.py:157 | A leading tag is dropped whole. |
| PackagedParse.InferOwnerVia | src/team_digest/team_email_digest.py:157-168 | `infer_owner` in terms of its tag-free stripped text and its head. |
| PackagedParse.InferOwnerBeforeTo | src/team_digest/team_email_digest.py:157-168 | `infer_owner` takes the one or two words that stand before the first " to " of the tag-free text. |
| PackagedParse.InferOwnerBlank | src/team_digest/team_email_digest.py:157-168 | Text that is nothing but tags and whitespace has no owner. |
| PackagedParse.InferOwnerTagged | src/team_digest/team_email_digest.py:150-156 | The shape of `infer_owner`'s documented examples: a priority tag, a one- or two-word name, " to ", and the work to do. The owner is the name. |
| PackagedParse.InferOwnerUntagged | src/team_digest/team_email_digest.py:155 | The untagged form, as in `infer_owner("Priya to prepare slides")`: the owner is the name before " to ". |
| PackagedParse.BucketMembers | src/team_digest/team_email_digest.py:202-206 | An action is in the bucket of its own priority and in no other. |
| PackagedParse.BucketsPartition | src/team_digest/team_email_digest.py:202-206 | Together the buckets hold every action exactly as often as the input does. |
| PackagedParse.PartitionBy | src/team_digest/team_email_digest.py:202-206 | Whatever the classifier, the three piles split the input. |
| PackagedParse.GroupActions | src/team_digest/team_email_digest.py:202-206 | Every priority is present and its bucket holds the actions of that priority, in input order. |
| PackagedParse.Bump | src/team_digest/team_email_digest.py:181 | The bumped priority's count goes up by one; every other count is unchanged. |
| PackagedParse.TallyIsBuckets | src/team_digest/team_email_digest.py:179-181 | Each count is the size of the matching bucket, so the counts add up to the number of actions. |
| PackagedParse.DayDocOf | src/team_digest/team_email_digest.py:170-189 | ValueError exactly when the file name carries no real date. |
| PackagedParse.CountPriorities | src/team_digest/team_email_digest.py:179-181 | Returns `Tally(actions)`, the count of each priority among the actions. |
| PackagedParse.ParseDayDoc | src/team_digest/team_email_digest.py:170-189 | Returns `DayDocOf(name, text)`: ValueError for a name without a real date, otherwise the day's sections, actions and counts. |
| PackagedParse.DayDocCounts | src/team_digest/team_email_digest.py:170-189 | A parsed day holds the date its file name carries, its actions are the bullets of its Actions section, and its counts add up to the number of actions, one per priority bucket. |
| PackagedParse.Aggregated | src/team_digest/team_email_digest.py:208-224 | Every section is present, holding the merged lines of all days for it. |
| PackagedParse.StrippedLines | src/team_digest/team_email_digest.py:223 | Returns the stripped lines that are not blank, in order. |
| PackagedParse.HasBullet | src/team_digest/team_email_digest.py:219 | Returns whether some line is a bullet line. |
| PackagedParse.DayContribution | src/team_digest/team_email_digest.py:212-223 | Returns what the day adds to the section: its actions for Actions, else its bullets when it has any, else its stripped non-blank lines. |
| PackagedParse.AggregateSections | src/team_digest/team_email_digest.py:208-224 | Returns `Aggregated(docs)`: every section of every day, appended in day order. |
| PackagedParse.OrderDistinct | src/team_digest/team_email_digest.py:47 | `SECTION_NAMES` lists each name once. |
| PackagedParse.AggregatedActions | src/team_digest/team_email_digest.py:208-224 | The merged Actions are every day's actions, in day order, so their number is the sum of the days' action counts. |
| PackagedParse.MergedClean | src/team_digest/team_email_digest.py:216-223 | Every merged narrative line is non-empty and stripped. |
| PackagedParse.AggregatedClean | src/team_digest/team_email_digest.py:208-224 | Every line of a merged narrative section is non-empty and stripped. |
| PackagedRender.CountsLineActions | src/team_digest/team_email_digest.py:198-200 | The Actions figure of the counts line is the length of the Actions list the range digest prints. |
| PackagedRender.Dashed | src/team_digest/team_email_digest.py:233-234 | One line per item, in order: `- ` and the item. |
| PackagedRender.UndashDashed | src/team_digest/team_email_digest.py:233-234 | Reading back the dashed lines gives the items. |
| PackagedRender.BlockRoundTrip | src/team_digest/team_email_digest.py:231-237 | A block shows the placeholder exactly when it has no items, and otherwise its items, each once and in order. |
| PackagedRender.EmitDashed | src/team_digest/team_email_digest.py:233-234 | Appends `- ` and each item, in order. |
| PackagedRender.EmitBlock | src/team_digest/team_email_digest.py:231-237 | Appends the block: its heading, its dashed items or its placeholder, and an empty line. |
| PackagedRender.SectionRoundTrip | src/team_digest/team_email_digest.py:229-237 | A section block reads back to its bullets, and shows `_No ..._` exactly when there are none. |
| PackagedRender.LowerTagsFold | src/team_digest/team_email_digest.py:252 | `LowerTags(a)` equals `a` up to letter case. |
| PackagedRender.SameFoldTags | src/team_digest/team_email_digest.py:51 | `PRIO_RX` ignores case, so strings equal up to case hold the same tags. |
| PackagedRender.SameFoldPriority | src/team_digest/team_email_digest.py:143-147 | Strings equal up to letter case have the same priority. |
| PackagedRender.LowerTagsPriority | src/team_digest/team_email_digest.py:252 | Lower-casing the tags keeps the action's priority. |
| PackagedRender.LowerTagsPlain | src/team_digest/team_email_digest.py:252 | Text without `[` is copied unchanged. |
| PackagedRender.LowerTagsLeading | src/team_digest/team_email_digest.py:252 | A leading tag in any case comes out as `[high]`, `[medium]` or `[low]`. |
| PackagedRender.LowerAll | src/team_digest/team_email_digest.py:251-253 | One shown action per action of the bucket, in order, each with its tags lower-cased. |
| PackagedRender.EmitBucket | src/team_digest/team_email_digest.py:247-256 | Appends the bucket's heading, its shown actions or its placeholder, and an empty line. |
| PackagedRender.EmitGrouped | src/team_digest/team_email_digest.py:245-256 | Appends the three buckets in the order High, Medium, Low. |
| PackagedRender.EmitPriority | src/team_digest/team_email_digest.py:343-354 | Appends the bucket of the priority, sorted by `s.lower()` for a range. |
| PackagedRender.EmitActions | src/team_digest/team_email_digest.py:336-358 | Appends the Actions section: the placeholder when there are no actions, else the grouped or the flat list. |
| PackagedRender.BucketRoundTrip | src/team_digest/team_email_digest.py:247-256 | The items read back from a bucket are the actions of that priority, tags lower-cased, and the bucket shows its placeholder exactly when it has none. |
| PackagedRender.ShownPermutation | src/team_digest/team_email_digest.py:343-351 | A bucket holds the actions of its priority, as often as the input does. |
| PackagedRender.ShownPriority | src/team_digest/team_email_digest.py:343-351 | Every shown action, before and after its tags are lower-cased, has the bucket's priority. |
| PackagedRender.ShownSorted | src/team_digest/team_email_digest.py:349 | The range digest lists each bucket in `s.lower()` order. |
| PackagedRender.GroupedCovers | src/team_digest/team_email_digest.py:343-354 | Together the three buckets show every action exactly once. |
| PackagedRender.EmitDaySection | src/team_digest/team_email_digest.py:229-237 | Appends one narrative section of the day: heading, its bullets dashed or its placeholder, and an empty line. |
| PackagedRender.RenderMdDaily | src/team_digest/team_email_digest.py:226-271 | Returns the daily lines, joined, right-stripped and ended by one newline. |
| PackagedRender.FinishTitled | src/team_digest/team_email_digest.py:271 | Finished lines that open with `# title` start with that line, right-stripped, and end with exactly one newline. |
| PackagedRender.DailyShape | src/team_digest/team_email_digest.py:226-271 | The daily digest opens with its dated title and ends with exactly one newline, with no whitespace before it. |
| PackagedRender.EmitKpis | src/team_digest/team_email_digest.py:287-322 | Appends the KPI block and, when asked for and there are actions, the owner breakdown table. |
| PackagedRender.EmitMerged | src/team_digest/team_email_digest.py:325-333 | Appends one merged narrative section: heading, its lines dashed or its placeholder, and an empty line. |
| PackagedRender.RenderMdRange | src/team_digest/team_email_digest.py:273-371 | Returns the range lines, joined, right-stripped and ended by one newline. |
| PackagedRender.KpisAgree | src/team_digest/team_email_digest.py:287-303 | With days read by `parse_day_doc`, the KPI Actions total equals the counts line's figure and the number of merged actions, each priority's count is the size of its bucket, and the Owners figure is the number of distinct owners among the merged actions. |
| PackagedRender.RangeShape | src/team_digest/team_email_digest.py:273-371 | A range digest opens with `# title` (right-stripped) and ends with exactly one newline, with no whitespace before it. |
| Dates.Ordinal | src/team_digest/team_email_digest.py:81 | `date.toordinal()` of a valid date lies between 1 and the ordinal of `date.max`. |
| Dates.FromOrdinal | weekly_digest.py:36 | `date.fromordinal(n)` is a valid date. |
| Dates.FromOrdinalOrdinal | weekly_digest.py:36-37 | Ordinals and dates are in one-to-one correspondence. |
| Dates.OrdinalFromOrdinal | weekly_digest.py:36-37 | `date.fromordinal(n).toordinal() == n`. |
| Dates.Weekday | weekly_digest.py:35 | The weekday is between 0 (Monday) and 6 (Sunday). |
| Dates.AddDays | weekly_digest.py:36-37 | `d + timedelta(days=k)` exists exactly when the new ordinal lies between 1 and that of `date.max`, and then it is the valid date with that ordinal. |
| Dates.NotAfterLexicographic | src/team_digest/team_email_digest.py:81 | Python compares dates as (year, month, day) tuples; on valid dates the key does the same. |
| Dates.NextDay | scripts/digest_aggregate.py:65 | The next day is a valid date, later than the day. |
| Dates.NextDayAddsOne | scripts/digest_aggregate.py:65 | The calendar step is the one-day `timedelta` step, which only `date.max` cannot take. |
| Dates.NotAfterOrdinal | scripts/digest_aggregate.py:63 | Date comparison is chronological: it orders dates as their ordinals. |
| Dates.Pad | weekly_digest.py:38 | The padded number has exactly the given width, all digits. |
| Dates.Decimal | weekly_digest.py:38 | `str(n)` is non-empty and all digits. |
| Dates.DecimalValue | team_email_digest.py:103-104 | `int(str(n)) == n`, and only `0` itself starts with the digit zero. |
| Dates.Iso | weekly_digest.py:38 | `isoformat()` is shaped `YYYY-MM-DD`. |
| Dates.ParseIso | src/team_digest/team_email_digest.py:65-66 | A parsed date is valid. |
| Dates.ParseIsoOfIso | src/team_digest/team_email_digest.py:65-69 | Formatting a date and parsing it back gives the date. |
| Dates.IsoOfParseIso | src/team_digest/team_email_digest.py:65-69 | A string that parses formats back to itself. |
| Sorting.StableSortSorted | scripts/digest_aggregate.py:191 | `sorted` returns its input in non-decreasing key order. |
| Sorting.StableSortPermutation | scripts/digest_aggregate.py:191 | `sorted` returns a permutation of its input. |
| Sorting.StableSortStable | scripts/digest_aggregate.py:191 | `sorted` keeps items with equal keys in their original order. |
| Text.LowerIdempotent | scripts/digest_aggregate.py:56 | Lower-casing twice changes nothing more. |
| Text.StripInShape | scripts/digest_aggregate.py:54 | A stripped string neither starts nor ends with a character of `cs`. |
| Text.StripInOfClean | scripts/digest_aggregate.py:54 | A string that neither starts nor ends with a character of `cs` is its own strip. |
| Text.FindIs | src/team_digest/team_email_digest.py:159 | The first occurrence from `i` on is found. |
| Text.FindNone | src/team_digest/team_email_digest.py:159 | No occurrence from `i` on: `find` reports none. |
| Text.JoinSplitFrom | post_digest.py:53 | Joining the pieces of a split with the separator gives back the text. |
| Text.SplitLines | scripts/digest_aggregate.py:71 | `splitlines()`: no piece holds a line break. |
| Text.SplitLinesOneLine | scripts/digest_aggregate.py:71 | Text without any line break is one line (or none, when empty). |
| Text.WordsFrom | src/team_digest/team_email_digest.py:162 | The words of `split()` are non-empty and hold no whitespace. |
| Text.FirstWordOf | scripts/digest_aggregate.py:41 | A word without whitespace, followed by nothing or by whitespace, is the first word of the text. |

## Left out

- Text.Lower: only ASCII letters are lowered; Python's `str.lower()` folds all of Unicode. The same applies to `re.I`, and to `\d`, `\w` and `\b`, which are ASCII here.
- LogText.DigitChars: `\d` is the ten ASCII digits; Python's `\d` also matches other Unicode decimal digits.
- PackagedParse.TagAt: the case-insensitive `PRIO_RX` match is ASCII-only, as for `Text.Lower`.
- LogText.TagIn: the case-insensitive priority-tag search of `detect_priority` is ASCII-only, as for `Text.Lower`.
- PackagedRender.LowerKey: the `sorted(..., key=lambda s: s.lower())` key of `PackagedRender.Shown` uses ASCII `Lower`, so two items that differ only outside ASCII may sort differently from Python.
- SortActions.Rank: the key `ln.lower()` is ASCII `Lower`.
- PackagedLogs.ListLogsInRange: the directory is the sequence of its entry names. `Path.glob("notes-*.md")` is modelled as a case-sensitive match on those names. Reading, `exists` and `mkdir` are not modelled.
- DigestAggregate.Aggregate: the logs directory is a map from file name to contents. Opening, reading and writing files, and printing, are not modelled.
- DigestDaily.Daily: the logs directory is a map from file name to contents. The default date (today in UTC) is left to the caller, and file reading and writing are not modelled.
- PackagedLogs.MonthWindow: `date.today()` is the parameter `today`.
- WeeklyWindow.LastWeekWindow: `dt.date.today()` is the parameter `today`.
- LegacyDigest.BuildDigest: the `generated_at` timestamp (a clock read) and the `version` field are dropped.
- LegacyDigest.ParseActions: `ACTION_KV_RE` is not written out. The parameter `kv` stands for its match on a cleaned line and gives the title, owner, due and priority groups, or None. What `_parse_actions` does with the groups is modelled.
- SortActions.SortActions: the file read and write of scripts/sort_actions.py:6-9 and 42-43 are not modelled. The function maps the file's text to the text written back, and a missing file or a file without `## Actions` is left unchanged.
- PostDigest: `post_to_slack`, `post_markdown_file`, `newest_md_in_outputs`, `load_markdown` and `main` (HTTP posting, file reading and the clock) are not modelled. scripts/post_to_slack.py and `post_slack_markdown` are not part of this model either.
- PostDigest.ReadEnvWebhook: the environment lookup is the parameter `env`. A `RuntimeError` is an `Err`.
- LogText.StripPriorityTag: the case-insensitive tag match is ASCII-only, as for `LogText.TagIn`.
- Command-line handling (`argparse`, `build_parser`, `handle_output`, `main`, `run_*`, `run_init`) and `render_json` (a `json.dumps` wrapper) of src/team_digest/team_email_digest.py are not part of this model.
- weekly_digest.py's subprocess runner (`run_cmd`, `generate_digest_for_range`, `post_with_helper`, `main`) is not part of this model. Only `last_week_window` is.
- The CI, packaging and diagnostic scripts (scripts/ci_*.py, scripts/check_examples.py, scripts/publish_digests.py, scripts/diagnose_weekly.py, verify_digest.py, demo_team_mock.py) are not part of this model.
- Decoding files with `errors="replace"` and UTF-8 byte handling are not modelled. Text is a sequence of characters.

## Findings

| source | as written | input that shows it | evidently intended | confidence | as-written member | corrected member |
|---|---|---|---|---|---|---|
| team_email_digest.py:44 | The group `([A-Za-z][A-Za-z\s_-]+?)` is lazy, and the rest of the pattern (`\s*:?\s*(.*)$`) matches any remaining text, so the group always stops after two characters. Only the alias `oq` (Open Questions) can then name a section. | `## Summary`: the group is `Su`, which names no section, so the line is body text of whatever section is current. Decisions, Actions, Risks and Dependencies can never be filled. | The whole heading word is the group, so `## Summary` and `Summary: text` open the Summary section, as the module docstring at team_email_digest.py:8-9 says. | not executed | LegacyText.SummaryHeadingIgnored | LegacyText.GreedySummaryHeading |
| scripts/digest_aggregate.py:35-38 | `fix_mojibake` applies each replacement once, in table order, so a replacement can create a sequence that an earlier entry would have repaired. The repair is not idempotent. | `â€â€œ`: the `â€œ` entry turns it into `â€“`, which is the mojibake of an en dash, and only a second call turns that into `–`. | One call repairs the text completely, so a second call changes nothing. | not executed | LogText.RepairedNotIdempotent | LogText.RepairedFully |
