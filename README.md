# factual — a verified model of the news-comparison pipeline and the account forms

factual takes a user's claim (a search query) and looks it up in Google's results. It fetches each news article the results link to and scores every article against the query. The score multiplies a weighted TF-IDF similarity by a BERT sentiment agreement. Around this sit a Django account service (registration, login, profile and credential updates) and a React front end with the register, login and profile forms.

This project models that core in Dafny:

- `common.dfy` (`Common`) holds the small Python string operations the code relies on, with their laws: `lower`, `strip`, `find`, `join` and list filtering.
- `normalizer.dfy` (`Normalizer`) models the text normaliser `etl`: lowercase the text, delete punctuation, tokenise, drop English stopwords.
- `page.dfy` (`PageExtract`) models the page extractor `fetch`: `text`, `urls`, `titles`, `date`, `tags` and `author`. The page is a parsed sequence of elements.
- `links.dfy` (`SearchLinks`) models `links(query)`:
  - query escaping;
  - unwrapping of Google's `/url?...` redirect links;
  - host extraction;
  - the google/twitter/youtube blocklist;
  - the dictionary of article texts by host.

  It also models the scoring loop of `comparison_list` in the same file.
- `scoring.dfy` (`Scoring`) models `prod.comparison_list`: the relevance guard, the three parallel lists, the sort and the Match column.
- `accounts.dfy` (`Accounts`) models the five account handlers over a store of users and profiles. Its class `AccountStore` holds two maps keyed by user id. The handlers that write take the database engine as a parameter: SQLite in development, PostgreSQL in production. PostgreSQL refuses a value longer than its `varchar` column (150 for the username, 254 for the email, 255 for the profile text fields). Its driver refuses any NUL character.
- `forms.dfy` (`Forms`) models the regular-expression validators shared by the navbar and the profile page.
- `navbar.dfy` (`Navbar`) models the register steps, the field handlers, the login-error reaction and the registration request. Its class `NavbarComponent` holds the component's state variables.
- `profile.dfy` (`ProfileEditor`) models the journalist toggle and the change-password dialog. Its class `ProfileComponent` holds that page's state variables.

In the React modules, a handler method is proved equal to a pure transition function on a snapshot of the state. The properties are lemmas about those functions. This includes the one-keystroke lag that comes from validators reading the rendered state.

## Model

| member | source | states |
|---|---|---|
| Common.Lower | backend/bert/API/etl.py:17 | `str.lower()` keeps the length, lowercases every ASCII capital and leaves every other character |
| Common.StripIsTrimmedSlice | bert/parser/Parser.py:88 | `strip()` returns a slice of the input that neither starts nor ends with whitespace, and drops whitespace only |
| Common.FindFirst | bert/parser/Parser.py:88 | `find` returns -1 exactly when the needle does not occur, otherwise its first occurrence |
| Common.FilterMembers | backend/bert/API/etl.py:18 | the list comprehension keeps exactly the elements that pass its test |
| Normalizer.RemovePunctuation | backend/bert/API/etl.py:16-17 | no punctuation character is left, every other character keeps its count, and the result is a subsequence of the input |
| Normalizer.RemoveStopwords | backend/bert/API/etl.py:18 | no kept word is a stopword, every non-stopword keeps its count, and the order is preserved (subsequence) |
| Normalizer.Etl.Prepared | backend/bert/API/etl.py:17 | the string handed to the tokenizer has no punctuation and no upper-case ASCII letter |
| Normalizer.Etl.Preprocess | backend/bert/API/etl.py:15-19 | the tokens of the prepared text with every stopword removed, every other token kept, in order |
| Normalizer.WhitespaceSplit | backend/bert/API/etl.py:17 | the whitespace tokenizer used in the lemmas yields non-empty words of non-whitespace characters from the input |
| Normalizer.BlankTextYieldsNothing | backend/bert/API/etl.py:16-18 | text made only of whitespace and punctuation, including the empty text, yields no tokens |
| Normalizer.CleanWordTokens | backend/bert/API/etl.py:16-17 | a word without whitespace or punctuation is tokenised into exactly its lowercase form |
| Normalizer.CapitalisedStopwordRemoved | backend/bert/API/etl.py:17-18 | lowercasing precedes the stopword test, so a capitalised stopword is removed |
| Normalizer.TheIsRemoved | backend/bert/API/etl.py:13-18 | with the English list, "The" yields no tokens |
| Normalizer.ReturnedTokensAreNormalised | backend/bert/API/etl.py:16-18 | every returned token is non-empty, not a stopword, and free of punctuation, upper-case ASCII and whitespace |
| Scoring.Agreement | backend/bert/API/tf_in_use.py:57 | the sentiment agreement is at most 1, is 1 exactly when both sentiments are equal, and is non-negative for probabilities |
| Scoring.AgreementSymmetric | backend/bert/API/tf_in_use.py:57 | agreement does not depend on the order of the two sentiments |
| Scoring.KeptIndices | backend/bert/API/tf_in_use.py:52-55 | no more kept indices than articles, all in range |
| Scoring.KeptIndicesAreKept | backend/bert/API/tf_in_use.py:55 | every listed article passes the guard: non-zero weighted similarity and a non-empty first field |
| Scoring.KeptIndicesIncreasing | backend/bert/API/tf_in_use.py:52-55 | kept articles are listed in input order without repetition |
| Scoring.KeptIndicesComplete | backend/bert/API/tf_in_use.py:52-55 | every article that passes the guard is listed |
| Scoring.KeptIndicesGrow | backend/bert/API/tf_in_use.py:52-55 | looking at more articles never keeps fewer |
| Scoring.InsertDescPermutes | backend/bert/API/tf_in_use.py:64 | one insertion step of the stable descending sort adds exactly the inserted row |
| Scoring.InsertDescSorted | backend/bert/API/tf_in_use.py:64 | one insertion step keeps the rows sorted by descending similarity list |
| Scoring.SortBySimilarityDescCorrect | backend/bert/API/tf_in_use.py:64 | the sort returns a permutation of its input in descending order of the similarity list |
| Scoring.SortOfOneTable | backend/bert/API/tf_in_use.py:62-64 | sorting the one-element list returns that element, so kept articles are never reordered |
| Scoring.ScoreArticles | backend/bert/API/tf_in_use.py:47-60 | the loop succeeds exactly when every article's first field is defined and there are enough links; then one similarity, one sentiment and the next link per kept article |
| Scoring.ComparisonList | backend/bert/API/tf_in_use.py:44-67 | the frame lists the links of the kept articles in input order with their similarity times sentiment agreement, or the IndexError the loop raises |
| Scoring.MatchWithinBounds | backend/bert/API/tf_in_use.py:53-65 | with probabilities as inputs, a Match lies between 0 and 1.25 |
| PageExtract.ElementsWithTagMembers | bert/parser/Parser.py:37 | `find_all(tag)` returns exactly the page's elements with that tag |
| PageExtract.Texts | bert/parser/Parser.py:37-38 | the element texts, one per element, in order |
| PageExtract.SpacePrefixedIsJoin | bert/parser/Parser.py:36-39 | accumulating `' ' + text` and dropping the first character is joining with single spaces |
| PageExtract.Text | bert/parser/Parser.py:35-39 | the paragraph texts in document order joined by single spaces, empty without paragraphs |
| PageExtract.TextHoldsEachParagraph | bert/parser/Parser.py:35-39 | every paragraph's text occurs in the result |
| PageExtract.Href | bert/parser/Parser.py:47 | the href is present exactly when the attribute is, with its value |
| PageExtract.Urls | bert/parser/Parser.py:42-50 | one (text, href) row per anchor, in document order |
| PageExtract.HeadingTexts | bert/parser/Parser.py:59-67 | the texts of all headings of the requested level, in order |
| PageExtract.TitlesOf | bert/parser/Parser.py:53-74 | the h1 texts for 1, the h2 texts for 2, the first title's string for 0 (an error without a title), ValueError otherwise |
| PageExtract.Contents | bert/parser/Parser.py:89 | the `content` attribute of each selected meta tag, in order |
| PageExtract.SelectStep | bert/parser/Parser.py:86-91 | one loop pass extends the selection by the current tag when selected, and a selected tag without `content` makes the method fail |
| PageExtract.SelectedContents | bert/parser/Parser.py:86-91 | one content per selected meta tag |
| PageExtract.Date | bert/parser/Parser.py:77-92 | published and modified contents in document order, or KeyError exactly when a selected tag lacks `content` |
| PageExtract.LeadingPublishedSkipped | bert/parser/Parser.py:88 | a property that starts with "published" is not collected, because `find` returns 0 for it |
| PageExtract.DateListsDisjoint | bert/parser/Parser.py:88-91 | a meta tag lands in at most one of the two lists, and published wins |
| PageExtract.DescriptiveRows | bert/parser/Parser.py:99-103 | one row per description/keywords tag, in document order, holding the tag's lowercased, unstripped name and its content |
| PageExtract.Tags | bert/parser/Parser.py:95-105 | the description and keywords rows in document order, or KeyError exactly when such a tag lacks `content` |
| PageExtract.PaddedNameKeptUntrimmed | bert/parser/Parser.py:100-101 | the selection strips the name but the row keeps it unstripped: " Keywords" is reported as " keywords" |
| PageExtract.ClassString | bert/parser/Parser.py:116-118 | a class string exists exactly for elements with a present, non-empty class list |
| PageExtract.TagClassStrings | bert/parser/Parser.py:114-118 | the inner loop collects the class strings of one tag's elements |
| PageExtract.CollectClassStrings | bert/parser/Parser.py:109-118 | the set of every class string on the page, collected tag by tag |
| PageExtract.FirstDivWithClass | bert/parser/Parser.py:126 | the first div whose class list matches, or none exactly when no div matches |
| PageExtract.AuthorTexts | bert/parser/Parser.py:123-129 | no more texts than author class strings: a class string contributes the text of its first div, or nothing without one |
| PageExtract.Author | bert/parser/Parser.py:107-130 | the div texts for the author/writer/journalist class strings, in some iteration order of the set |
| PageExtract.MatchedDivNamesAuthor | bert/parser/Parser.py:120-127 | a div found for an author class string has a class string naming an author |
| PageExtract.AuthorTextsFromAuthorDivs | bert/parser/Parser.py:107-130 | every returned text is the text of a div whose class string contains author, writer or journalist |
| SearchLinks.BlankNonAlnum | bert/API/main.py:17 | each non-alphanumeric character becomes a space, the rest stay |
| SearchLinks.SpacesToPlus | bert/API/main.py:17 | each space becomes `+`, the rest stay |
| SearchLinks.EscapeQueryCharwise | bert/API/main.py:17 | the escaped query keeps the length, every ASCII letter and digit, and turns everything else into `+` |
| SearchLinks.EscapeQueryIdempotent | bert/API/main.py:17 | escaping an escaped query changes nothing |
| SearchLinks.RestOfLine | bert/API/main.py:28-29 | the `(.*)` group is the longest prefix without a line break |
| SearchLinks.PySliceTo | bert/API/main.py:30 | Python's `s[0:end]`: a prefix of `s` of length `end`, or `|s| + end` for a negative end, clamped to the whole string above and to the empty string below |
| SearchLinks.UnwrapFailures | bert/API/main.py:28-29 | unwrapping fails on `[0]` exactly when `http`, then `&ved`, is missing |
| SearchLinks.UnwrapIsSlice | bert/API/main.py:28-30 | on a one-line link, the unwrapped link is the text from the first `http` to the first `&ved` |
| SearchLinks.UnwrapVedFirst | bert/API/main.py:28-30 | when `&ved` comes first, the text from `http` on is cut by the negative distance, and is empty once the `&ved` tail is more than twice the `http` tail |
| SearchLinks.GroupAfterWhole | bert/API/main.py:28-29 | on a one-line link, the group after a literal runs to the end of the link |
| SearchLinks.HostRun | bert/API/main.py:35 | the group `([A-Za-z_0-9.-]+)` is the maximal run of host characters |
| SearchLinks.FirstFromIsFirst | bert/API/main.py:35 | the search reports the leftmost matching position, or none when none matches |
| SearchLinks.NewsSourceLeftmost | bert/API/main.py:35-37 | the host is the host run after the leftmost `http://`/`https://` match; there is none exactly when nothing matches, and it is never empty |
| SearchLinks.AnchorsOf | bert/API/main.py:19-20 | the anchor table has one row per anchor |
| SearchLinks.Effects | bert/API/main.py:25-39 | one effect per anchor row |
| SearchLinks.HarvestErrPersists | bert/API/main.py:25-39 | once a row raises, later rows do not matter |
| SearchLinks.HarvestRow | bert/API/main.py:26-39 | the loop body: skip a non-redirect, raise on a failed unwrap or unbound host, else store the article text under the host unless blocked |
| SearchLinks.HarvestRows | bert/API/main.py:25-39 | the loop over every row but the last computes the fold of the row effects |
| SearchLinks.Links | bert/API/main.py:16-40 | the dictionary of article texts by host and the anchor table of the second fetch, or the row error |
| SearchLinks.HarvestAgrees | bert/API/main.py:25 | the state after n rows depends only on those rows |
| SearchLinks.LastAnchorIgnored | bert/API/main.py:25 | the last anchor of the table is never examined |
| SearchLinks.NoRedirectNoEntry | bert/API/main.py:27 | without a `/url` row the dictionary stays empty |
| SearchLinks.EffectsFindHostNames | bert/API/main.py:35-37 | every host a row finds is a non-empty run of host characters |
| SearchLinks.HarvestKeysAllowed | bert/API/main.py:38-39 | every key, and the carried host, is a host name, and no key contains google, twitter or youtube |
| SearchLinks.LinksKeysAllowed | bert/API/main.py:16-40 | no key of the returned dictionary contains google, twitter or youtube |
| SearchLinks.StepEffect | bert/API/main.py:38-39 | a row sets the entry of the host it stores under to its text and leaves every other entry unchanged |
| SearchLinks.HarvestKeys | bert/API/main.py:25-39 | the dictionary has an entry exactly for the hosts some examined row stored under |
| SearchLinks.HarvestLastWriter | bert/API/main.py:39 | the entry of a host holds the text of the last row that stored under it |
| SearchLinks.LastWriterBefore | bert/API/main.py:39 | the last writer among n rows, when row n-1 does not write, is the last writer among n-1 rows |
| SearchLinks.ScoreAnchors | bert/API/main.py:67-77 | the guard never filters: every anchor gets its href and its weighted similarity times sentiment agreement |
| SearchLinks.MainComparisonList | bert/API/main.py:59-78 | the error of `links`, the KeyError of an empty anchor table, or one row per anchor with its score |
| Accounts.NormalizeEmailLowersDomain | accounts/views.py:52 | the stored email lowercases the domain of `local@domain`, so it equals the username exactly when the domain has no upper-case letter |
| Accounts.AccountStore.Register | accounts/views.py:41-69 | 400 without a username, when the database cannot store the username or normalised email, or when the username is taken (store unchanged, in that order); otherwise an inactive user with the submitted username and the normalised email, then a profile, or 400 with the user kept when a profile text field cannot be stored or `is_journalist` is null |
| Accounts.AccountStore.Login | accounts/views.py:75-118 | the answer is the login outcome: serializer errors (missing, blank, too long, NUL) first, then unknown username, then inactive, then wrong password, else the user |
| Accounts.LoginErrorPrecedence | accounts/views.py:90-109 | for a valid request, an unknown username is 'Invalid email', and a known active user whose password does not match is 'Invalid password' |
| Accounts.InactiveIsNotActive | accounts/views.py:99-101 | an inactive account with a well-formed username is answered 'Not active.' for any non-blank password, right or wrong, unless a NUL character in either field is refused by the serializer first |
| Accounts.LoginSucceedsExactly | accounts/views.py:75-118 | login succeeds exactly for a valid request (present, not blank, username at most 30 characters, no NUL) whose stripped credentials authenticate an active user, and returns that user |
| Accounts.RegisteredCannotLogIn | accounts/views.py:53-54 | a freshly registered account cannot log in; without a NUL character the answer is 'Not active.' |
| Accounts.AccountStore.UpdateProfile | accounts/views.py:136-160 | all four fields are replaced, absent ones by null; 400 without a profile, with a text field the database cannot store, or with a null `is_journalist`, profile unchanged |
| Accounts.AccountStore.UpdateEmail | accounts/views.py:164-180 | 400 without an email or when another user has it; 500 when the driver refuses the address in the lookup (NUL, before the in-use test), when the save cannot store it as username or email, or when another user has it as username; otherwise email and username both set, nothing else changed |
| Accounts.NormalizedEmailWithin | accounts/views.py:52 | the normalised email is never longer than the address and holds a NUL character only if the address does |
| Accounts.PostgresStoresUserExactly | backend/factualweb/settings/prod.py:14-23 | on PostgreSQL, `create_user` can write the user exactly when the address has at most 150 characters and no NUL character |
| Accounts.AccountStore.ChangePassword | accounts/views.py:184-204 | 400 with a field missing or an old password that does not authenticate; 500 when the validators reject the new password; otherwise the password is replaced |
| Accounts.NewPasswordLogsIn | accounts/views.py:192-202 | after a change, an active user logs in with the new password exactly when neither it nor the username holds a NUL character, and never with another password |
| Forms.EmailMatchHasShape | frontend/src/navbar.js:49 | a match of the email expression has the plain shape |
| Forms.EmailShapeMatches | frontend/src/navbar.js:49 | an address of that shape matches the expression |
| Forms.EmailMatchesIff | frontend/src/navbar.js:49-50 | the expression accepts exactly addresses without whitespace with one `@`, a non-empty local part and a `.` inside the domain |
| Forms.ValidateEmail | frontend/src/navbar.js:47-57 | the flag is that shape, and the error text is empty exactly when the flag is set |
| Forms.ValidatePasswordCriteria | frontend/src/navbar.js:86-102 | the flag is the five criteria, the length counted in UTF-16 code units, and the error text is empty exactly when they hold |
| Forms.MinLengthIsSeven | frontend/src/navbar.js:88 | without line breaks, the length test accepts seven UTF-16 code units: seven characters below U+10000, one fewer than the message states |
| Forms.AstralCharacterCountsTwice | frontend/src/navbar.js:88-101 | a character above U+FFFF counts twice, so six characters with the four kinds meet the criteria |
| Forms.LineBreaksSplitRuns | frontend/src/navbar.js:88 | line breaks that leave no seven code units in a row fail the length test at any length |
| Forms.SevenCharactersAccepted | frontend/src/navbar.js:88-101 | a seven-character password with the four kinds of character meets the criteria |
| Forms.UndefinedFailsCriteria | frontend/src/Profile.js:89-102 | an undefined password, tested as "undefined", fails the criteria |
| Forms.ValidatePasswordsMatch | frontend/src/navbar.js:104-113 | the flag is strict equality, and the error text is empty exactly when they match |
| Navbar.ShownMessage | frontend/src/navbar.js:176 | without any of the three keys the shown message is the fallback's first character |
| Navbar.StepNextUsesRenderedFlags | frontend/src/navbar.js:17-32 | from step 1 the step moves to 2 exactly when the rendered flags are all set, and the flags are recomputed from the form; other steps increment |
| Navbar.ValidFormNeedsSecondClick | frontend/src/navbar.js:17-32 | a valid form whose flags are unset stays on the first click and moves on at the second |
| Navbar.StaleFlagsLetInvalidFormThrough | frontend/src/navbar.js:17-32 | flags set earlier let Next through a form whose email is now invalid |
| Navbar.FirstClickStays | frontend/src/navbar.js:16-44 | a fresh form does not move on at the first click |
| Navbar.PreviousResets | frontend/src/navbar.js:406 | Previous returns to step 1 and changes nothing else |
| Navbar.EmailCheckLagsOneEdit | frontend/src/navbar.js:60-64 | typing an email validates the address typed before it |
| Navbar.PasswordCheckLagsOneEdit | frontend/src/navbar.js:67-74 | typing a password tests the criteria on the previous password, and the match on the new one only when a confirmation exists |
| Navbar.ConfirmationComparedWithPassword | frontend/src/navbar.js:77-84 | a typed confirmation is compared with the rendered password |
| Navbar.LoginReaction | frontend/src/navbar.js:174-190 | 'Not active.' closes the login dialog and opens the not-active one; 'Invalid email' and 'Invalid password' set their markers; serializer errors change nothing |
| Navbar.FallbackShowsNothing | frontend/src/navbar.js:176-190 | a refusal without the three keys changes nothing |
| Navbar.RegisterPayload | frontend/src/navbar.js:209-215 | employment is null unless journalist, organisation is null unless journalist and employed |
| Navbar.RequestFields | frontend/src/navbar.js:225-231 | the journalist flag is always sent, so registration from the form never fails on a null flag |
| Navbar.NavbarComponent.constructor | frontend/src/navbar.js:16-45 | the initial state |
| Navbar.NavbarComponent.ValidateEmailOf | frontend/src/navbar.js:47-58 | sets the email flag and text for the rendered address |
| Navbar.NavbarComponent.ValidateCriteriaOf | frontend/src/navbar.js:86-102 | sets the criteria flag and text for the rendered password |
| Navbar.NavbarComponent.ValidateMatchOf | frontend/src/navbar.js:104-113 | sets the match flag and text |
| Navbar.NavbarComponent.HandleEmailChange | frontend/src/navbar.js:60-64 | the new state is the email transition of the rendered state |
| Navbar.NavbarComponent.HandlePasswordChange | frontend/src/navbar.js:67-74 | the new state is the password transition of the rendered state |
| Navbar.NavbarComponent.HandleConfirmationPasswordChange | frontend/src/navbar.js:77-84 | the new state is the confirmation transition of the rendered state |
| Navbar.NavbarComponent.HandleRegisterStepNext | frontend/src/navbar.js:17-32 | the new state is the Next transition of the rendered state |
| Navbar.NavbarComponent.HandleRegisterStepPrevious | frontend/src/navbar.js:406 | the step returns to 1 |
| Navbar.NavbarComponent.HandleLoginRefused | frontend/src/navbar.js:174-190 | the new state is the login-refusal transition |
| ProfileEditor.Get | frontend/src/Profile.js:72 | a property is defined exactly when its key is present |
| ProfileEditor.Spread | frontend/src/Profile.js:62 | spreading a string gives one index per UTF-16 code unit holding that unit, and no named property |
| ProfileEditor.PasswordRequest | frontend/src/Profile.js:125-128 | each password is sent exactly when its property is present |
| ProfileEditor.ToggleClearsEmployment | frontend/src/Profile.js:38-42 | toggling flips the flag and nulls both employment fields; toggling twice restores only the flag |
| ProfileEditor.OldPasswordDropsOthers | frontend/src/Profile.js:60-63 | typing the old password leaves only its code units by index and `old_password`, so the request then has no new password |
| ProfileEditor.FirstNewPasswordKeyFailsCriteria | frontend/src/Profile.js:65-70 | the first key typed into the new password after the old one is checked against "undefined" and fails |
| ProfileEditor.EditsKeepOtherFields | frontend/src/Profile.js:65-86 | typing the new password or the confirmation replaces only that property; the indices stay |
| ProfileEditor.StaleCriteriaEnableUpdate | frontend/src/Profile.js:354 | a failing password typed after a good one still enables Update when it equals the confirmation |
| ProfileEditor.ConfirmationEnablesOnlyOnMatch | frontend/src/Profile.js:78-86 | after a confirmation, Update is enabled exactly when the rendered criteria flag is set and the new password equals the confirmation |
| ProfileEditor.InOrderSendsBoth | frontend/src/Profile.js:60-86 | typing old, new, then confirmation sends both passwords |
| ProfileEditor.ProfileComponent.constructor | frontend/src/Profile.js:5-21 | the initial state |
| ProfileEditor.ProfileComponent.LoadProfile | frontend/src/Profile.js:24-31 | the loaded profile's four fields are copied |
| ProfileEditor.ProfileComponent.HandleIsJournalistChange | frontend/src/Profile.js:38-42 | the new state is the toggle transition |
| ProfileEditor.ProfileComponent.HandleOldPasswordChange | frontend/src/Profile.js:60-63 | the password object is rebuilt from the spread string and `old_password` |
| ProfileEditor.ProfileComponent.ValidateCriteriaOf | frontend/src/Profile.js:88-105 | sets the criteria flag and text for the tested value |
| ProfileEditor.ProfileComponent.ValidateMatchOf | frontend/src/Profile.js:107-113 | sets the match flag and text |
| ProfileEditor.ProfileComponent.HandlePasswordChange | frontend/src/Profile.js:65-75 | the new state is the new-password transition of the rendered state |
| ProfileEditor.ProfileComponent.HandleConfirmationPasswordChange | frontend/src/Profile.js:78-86 | the new state is the confirmation transition of the rendered state |

## Left out

- Network and browser I/O are left out: the HTTP requests, cookies, user agents, `localStorage`, `window.location` and the frontend `fetch` calls. A page fetch is the parameter `fetchPage`, a function from URL to a parsed page. It is deterministic, so the two fetches of the search page in `links` return the same table. Article pages are fetched eagerly for every stored row.
- HTML parsing is not modelled. A page is a sequence of elements (tag, attributes, class list, text, `.string`) in document order.
- The TF-IDF similarity and the BERT sentiment (`compute_similarity`, `get_sent`) are left out. They are floating-point ML code and appear as function parameters; the NLTK tokenizer is a parameter too. Reals stand in for floats, so rounding is not modelled.
- bert/API/tf_in_use.py is not part of this model. bert/API/main.py:9 imports it with `*`, but its line 10 imports `Parse`, which bert/parser/Parser.py does not define, so bert/API/main.py cannot be imported as written.
- `SearchLinks.MainComparisonList` and `SearchLinks.ScoreAnchors` describe the call that was evidently meant: bert/API/tf_in_use.py defines `compute_similarity` only as a method of `prod`, so the bare call at bert/API/main.py:68 would raise NameError at the first anchor. The model calls the similarity through its `similarity` parameter instead.
- `Common.Lower` and `Accounts.NormalizeEmail` lowercase ASCII letters only. Python's `str.lower` also maps other Unicode letters.
- `create_user`'s Unicode NFKC normalisation of the username is left out, and so is password hashing: a stored password is compared as given.
- `PageExtract.Author`: the iteration order of the Python sets is arbitrary. The contract fixes the output only up to some order of the class strings.
- `SearchLinks.MainComparisonList`: `simlist` collects aliases of the growing `sim` list and is never used, so it is not modelled. Call counts of the opaque functions are not modelled either.
- The comment at backend/bert/API/tf_in_use.py:63 says the results are sorted by similarity. But `sorted` ranges over the one-element list `res_dic`, so the model keeps input order (`Scoring.SortOfOneTable`).
- The storage model covers the column lengths and the NUL refusal only. Other database failures (lost connections, other constraints) are not modelled. A failed insert is also taken not to consume a user id.
- Unauthenticated requests to the profile, email and password handlers are not modelled. Those handlers take an existing user id.
- The JSON body of a request is modelled as optional strings (and an optional flag). Values of other JSON types are not modelled.
- The copies of the pipeline in bert/main.py, bert/mvp_model.py and the training scripts are left out. So are the Django API proxy views and the JSX rendering.
- Rendering is not modelled. React batching is modelled as the handler working from the rendered state; the handlers not listed above (checkbox, select, name fields, the email dialog) are left out.
