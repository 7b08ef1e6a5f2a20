# Name checker profile policy, in Dafny

This project models the moderation policy of the `NameChecker` cog
(`namechecker.py`), a plugin for a Discord bot. When a member joins, or when an
owner runs `checkprofile`, the cog checks the member's names against two
rules and reports every issue it finds:

* **Character allow-list.** A global username may only use ASCII letters,
  digits and punctuation. A server nickname or global display name may also
  use the space.
* **Prohibited words.** A per-server list of lower-case words or phrases.
  A word matches when it occurs anywhere in the lower-cased text (substring
  match, not whole-word).

The username is always checked. Then exactly one of three cases applies:
1. A server nickname is set: it is checked.
2. No nickname, but a global display name is set: the display name is checked.
3. Neither is set: a "Profile Customization" issue is raised.

The inspection command also searches a fetched, non-empty bio for prohibited
words. The join handler does not. The cog raises an alert flag with every
issue it appends. It reports the issues with repeats removed.

Administrators edit the word list with `bioset add`, `bioset remove` and
`bioset clear`. A long inspection report is split into 1990-character
messages.

Modules (one file each):

* `Sequences` (`sequences.dfy`): duplicate-freedom, first occurrences, and
  order-preserving removal of repeats (`list(dict.fromkeys(xs))`).
* `Policy` (`policy.dfy`): the two character sets and ASCII lower-casing.
* `NameChecks` (`name_checks.dfy`): `_check_name_characters` and
  `_check_text_for_prohibited_words`. Both are methods with loops, proved
  against specification functions.
* `Evaluation` (`evaluation.dfy`): the field-precedence policy. Issues are a
  `Finding` datatype, not Markdown strings. `ProfileFindings` is the
  specification. `EvaluateProfile` and `OnMemberJoin` are the methods.
* `WordList` (`word_list.dfy`): the word list as a class whose methods edit
  it in place.
* `Chunking` (`chunking.dfy`): splitting the report into messages.
* `Wrappers` (`wrappers.dfy`): `Option`, for Python's `None`.

Some behaviour of the code is easy to misread. The model follows the code:

* The join handler has no bio step. `OnMemberJoin` evaluates with no bio.
* The found words are returned as `list(set(found_words))`, whose order
  Python leaves open. The model returns them as a `set`.
* Empty text returns "no match" before any word is looked at. Python's
  `"" in "abc"` is true, so the empty word would match any non-empty text,
  but not the empty text. `MatchedWords` keeps that early return.
* The source removes repeated issues with `dict.fromkeys`.
  `FindingsDistinct` proves the evaluation never produces a repeat, so that
  step changes nothing.

## Model

| member | source | states |
|---|---|---|
| `Sequences.FirstOccurrences` | namechecker.py:45-49 | The collected elements are exactly the kept elements of the input, and none occurs twice |
| `Sequences.FirstOccurrencesOrder` | namechecker.py:45-49 | Collected elements stand in the order of their first occurrence in the input |
| `Sequences.FirstOccurrencesOfDistinct` | namechecker.py:119 | On a repeat-free input whose elements are all kept, nothing is removed |
| `Sequences.DedupSpec` | namechecker.py:336 | `dict.fromkeys` removal keeps each distinct element once, in first-occurrence order, and is the identity on repeat-free input |
| `Policy.UsernameAllowedIsPrintableAscii` | namechecker.py:7-8 | The username set is exactly the printable ASCII characters other than space |
| `Policy.NickSetIsUsernameSetPlusSpace` | namechecker.py:7-9 | The nickname / display-name set is the username set plus the space, and the username set lacks the space |
| `Policy.LowerStrIdempotent` | namechecker.py:178 | Lower-cased text is left unchanged by lower-casing again |
| `NameChecks.CheckNameCharacters` | namechecker.py:40-50 | Valid iff every character is allowed; the returned characters are the distinct offending ones in first-seen order; valid iff none returned; an empty name is valid with none |
| `NameChecks.InvalidCharsSpec` | namechecker.py:43-50 | A character is returned iff it occurs in the name outside the set; none twice; ordered by first occurrence in the name |
| `NameChecks.NickPolicyOnlyAddsSpace` | namechecker.py:7-9 | A name valid as a username is valid as a nickname, and the nickname check flags the same characters except the space |
| `NameChecks.IsSubstringIffOccurs` | namechecker.py:60 | The substring test holds iff the word occurs at some position of the text |
| `NameChecks.CheckProhibitedWords` | namechecker.py:52-63 | Returns the set of listed words occurring in the lower-cased non-empty text; the flag is set iff that set is non-empty |
| `NameChecks.MatchedWordsSpec` | namechecker.py:54-61 | A word is matched iff the text is non-empty, the word is listed, and it occurs at some position of the lower-cased text; an empty list or an empty text matches nothing |
| `NameChecks.EmptyTextFindsNoNonEmptyWord` | namechecker.py:54-55 | The empty-text early return only differs from substring search for the empty word |
| `NameChecks.MatchingIgnoresTextCase` | namechecker.py:58 | Lower-casing the text first does not change which words match |
| `Evaluation.CheckField` | namechecker.py:82-90 | The issues for one name field are its character issue (if any) followed by its prohibited-word issue (if any) |
| `Evaluation.CheckDisplayIdentity` | namechecker.py:93-116 | The nickname / display-name step yields exactly the issues of whichever one of its three cases applies |
| `Evaluation.CheckBio` | namechecker.py:320-325 | A set bio yields a prohibited-word issue iff a listed word is found in it; an unset bio yields nothing |
| `Evaluation.EvaluateProfile` | namechecker.py:271-339 | The issues are those of the username, display-identity and bio steps in order; the flag is set iff an issue was appended; the reasons are the issues with repeats removed |
| `Evaluation.OnMemberJoin` | namechecker.py:66-120 | An alert is sent iff a channel is configured and usable and the bio-less evaluation found issues; it lists exactly those issues |
| `Evaluation.UsernameAlwaysChecked` | namechecker.py:82-90 | The username issues are always its character check against the no-space set plus its word check |
| `Evaluation.NicknameCheckedWhenSet` | namechecker.py:93-102 | Nickname issues arise only when a nickname is set, and are its checks against the space-allowing set |
| `Evaluation.DisplayNameCheckedWithoutNickname` | namechecker.py:103-116 | Display-name issues arise only when no nickname and a display name are set, and are its checks against the space-allowing set |
| `Evaluation.CustomizationIssueWhenNeitherSet` | namechecker.py:104-106 | The "Profile Customization" issue is raised, once, exactly when neither nickname nor display name is set |
| `Evaluation.BioCheckedWhenSet` | namechecker.py:319-325 | Bio issues arise only for a set bio, and come from the word check alone |
| `Evaluation.NicknameTakesPrecedence` | namechecker.py:93-116 | With a nickname set, changing the global display name changes no issue, and no issue concerns the display name |
| `Evaluation.MissingCustomizationIffNeitherSet` | namechecker.py:103-106 | The customization issue occurs iff neither name is set, and then exactly once |
| `Evaluation.BioCheckedForWordsOnly` | namechecker.py:320-325 | Every bio issue is a prohibited-word issue carrying exactly the matched words; one exists iff the bio is set and some word matches |
| `Evaluation.NameFindingsSpec` | namechecker.py:85-90 | A field gets a character issue iff a character is outside the set, listing exactly the offending characters; and a word issue iff some word matched, listing exactly those words |
| `Evaluation.FindingsDistinct` | namechecker.py:118-119 | The evaluation never appends the same issue twice, so `dict.fromkeys` changes nothing |
| `WordList.WithWordSpec` | namechecker.py:178-181 | Adding keeps the list lower-case and repeat-free, keeps existing entries as a prefix, and adds exactly the lower-cased word when absent |
| `WordList.WithWordIgnoresCaseAndRepeats` | namechecker.py:178-184 | Adding a word equals adding its lower-cased form, and adding twice equals adding once |
| `WordList.RemoveFirstIsExcept` | namechecker.py:190-191 | On a repeat-free list, `list.remove` equals dropping every copy of the entry, keeping the others in order |
| `WordList.WithoutWordSpec` | namechecker.py:188-191 | Removing keeps the list well formed and leaves exactly the other entries in their order; an absent word is a no-op |
| `WordList.AddThenRemove` | namechecker.py:176-194 | Removing a word just added to a list that lacked it restores the list |
| `WordList.ProhibitedWordList.constructor` | namechecker.py:30 | A server's list starts empty |
| `WordList.ProhibitedWordList.Add` | namechecker.py:176-184 | Appends the lower-cased word iff absent, reporting whether it did; the list stays lower-case and repeat-free |
| `WordList.ProhibitedWordList.Remove` | namechecker.py:186-194 | Removes the lower-cased word iff present, reporting whether it did; the list stays well formed |
| `WordList.ProhibitedWordList.Clear` | namechecker.py:207-214 | Leaves the list empty, reporting whether it held anything |
| `Chunking.ChunkSizes` | namechecker.py:345 | Every slice is non-empty and at most 1990 characters; all but the last are exactly 1990 |
| `Chunking.ChunksRoundTrip` | namechecker.py:345 | Joining the slices gives back the report |
| `Chunking.MessagePartsSpec` | namechecker.py:343-349 | The messages sent join to the report, none exceeds 1990 characters, a short report is sent whole, a long one in at least two parts |

## Left out

- Discord event delivery, `ctx.send`, `alert_channel.send`, embed construction, thumbnails, mentions and console logging: network I/O and framework glue. `OnMemberJoin` returns the alert it would send.
- Red `Config` persistence and its async context managers: the word list is a field of `ProhibitedWordList`, and the alert channel is an input.
- `namecheckerset channel` / `show` and `bioset list`: these only store or display settings.
- `fetch_profile`, the `hasattr` probe, exception handling and the bio status messages: external API calls. The bio is an optional input, present only when the fetch produced one.
- The alert-channel lookup and the send-permission check: these are platform calls, so the model takes a single "usable" flag.
- The Markdown text of issues and report lines, including `_format_found_list` and the per-field compliance lines of the inspection transcript. Issues are `Finding` values instead.
- Full Unicode `str.lower()`: `Lower` maps only ASCII `A`-`Z`. Other characters are left unchanged, so non-ASCII case folding is not modelled.
- Command decorators and permission checks: these belong to the command framework.
