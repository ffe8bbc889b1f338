# Verified model of dj-hyperview's core

dj-hyperview serves Django templates to Hyperview clients. This project models the parts of it whose correctness rests on an argument and not on one line of code, and proves what they are there for. The modules follow the source files:

- **Cache protocol** (`CacheProtocol`, `OldReadings`, `Resolving`, `UndisturbedCalls`, `Fingerprint`, `Decimal`). Resolvers and invalidators share a key/value backend through a generation token per template name. A run is any interleaving of single backend operations, source reads, source changes, expiries and failures of any number of processes. Proved for all runs, evictions included: that a resolve which reads the generation after a confirmed invalidation is bound to what its sources held since, with a run that shows why one kind of token is excepted; when exactly a generation can still serve readings from before a given moment; that a token never returns; and that the cache is transparent from every reachable state once sources stop changing and an invalidation has been confirmed. A call of `resolve` raises, and one of `invalidate` fails, exactly by a failure of its own; an undisturbed resolve ends within a stated number of steps, with the first template that the cache and the sources show, and leaves in the store exactly what it may keep. The identity that keeps two sources from sharing entries is proved to be exact: it is equal precisely for equal configurations.
- **Scanners** (`Text`, `TemplateLexer`, `DeclarationScan`, `TreeLimits`). The linear scans are proved equal to the quadratic or character-by-character definitions they replace, and their work is counted and linear. The walks over trees accept exactly the trees within the limits.
- **Editor** (`HxmlTemplate`, `HxmlFormatter`, `HxmlLayout`, `DjangoMarkers`). The formatter's one-pass stack parser accepts exactly the templates with a proper tree, and its output is the same tree, keeps every token that is not whitespace, and is a fixed point, laid out with one line for each child and two spaces for each open ancestor. Protecting Django tokens by markers is undone by restoring them under an exact condition.
- **Static checks of a draft** (`Splicing`, `IncludeExpansion`, `Marker`, `MaskedSource`, `MaskedTags`). Recursive include expansion under one budget, with what stands where in the result; markers that occur nowhere in a source; and the masked document, with which marker stands for which tag.
- **Realtime** (`Subscription`, `Publisher`, `PublisherHandoff`). The bounded hint queue with its resync, the publishing worker with its clients and circuit breakers and what becomes of every job, and the race between callers and the end of the worker.
- **Responses and schema files** (`HeaderParameters`, `ResponseBody`, `SchemaGuard`). The quoting of Content-Type parameters (sections 5.6.2, 5.6.4 and 5.6.6 of RFC 9110), the response body that changes as a whole or not at all, and the bounded closure of schema references.

`dafny verify dfyconfig.toml` checks the whole project.

Code that the source runs step by step is imperative here: `ForwardFind`, `Scanner`, `Queue`, `Worker`, `Target`, `Budget` and `Response` are classes with the source's fields, and the loops of the scanners, walks, masks and worklists are loops. The cache protocol and the handoff are step machines, because what is proved of them is about interleavings of single operations. Ghost fields hold history only: what arrived and was delivered, which clients were closed, what was sent when, which targets were resolved.

Results of the proofs that a maintainer may want to know:

- A call that reads a generation may get a reading from before some moment exactly if one is stored under that generation, or a resolver that works under it has one left to store (`OldReadings.OldReadingsIff`). A confirmed invalidation leaves none, except under a token that was added by a resolver with an older reading (`OldReadings.InvalidationCleans`), and for such a token to appear the key has to be lost after the invalidation began (`CacheProtocol.StaleFreedomWithoutEviction`). A run that fails takes one eviction (`CacheProtocol.EvictionBreaksStaleFreedom`).
- Closing a subscription ends one of the calls that wait on it: without late hints, all of them end exactly if there is at most one, and the others are left with an empty queue until they are cancelled (`Subscription.CloseAndTake`).
- A wait that a close overtakes gets a resync in place of the end exactly if no resync was due and at least 32 hints arrive between the close and the cancelling of the pump (`Subscription.CloseAndTake`).
- `_unclosed_cost_exceeds` answers exactly if the limit is not negative or the source holds a brace, and only then (`TemplateLexer.ExceedsIsExactIff`).
- `_blank_xml_declarations` looks for the closing `?>` behind the character after `<?xml`, so the text `<?xml?>` is not closed by its own end and is blanked up to the next `?>` if there is one. `MaskedSource.DeclarationEndsAsInXmlIff` says exactly when the end it takes is the one XML takes; the model follows the code.
- `restoreDjango` gives back what `protectDjango` was given if and only if no Django token is followed by a digit at once, because the digit is read as part of the marker's number (`DjangoMarkers.RestoreProtectIff`).

## Model

| member | source | states |
|---|---|---|
| CacheProtocol.StaleFreedom | src/dj_hyperview/cache.py:282-296 | In every run, evictions and failures included: once an invalidation that began at some step has returned normally, a resolver that reads the generation later gets for each source only what that source held at a moment since the invalidation began, unless the token it reads was added by a resolver with a reading from before that |
| OldReadings.OldReadingsIff | src/dj_hyperview/resolver.py:322-373 | From every reachable state with a generation, and for every earlier moment: some continuation answers a call that reads this generation from now on with a reading from before that moment, if and only if the store holds such a reading under it, or a resolver that works under it may still store one |
| OldReadings.CleanPeekIsRecent | src/dj_hyperview/resolver.py:340-373 | In every run, whatever was invalidated, lost or delayed: a call that reads a generation under which nothing from before a moment is held or still to be stored gets only readings since that moment |
| OldReadings.CleanPeekIsTransparent | src/dj_hyperview/resolver.py:274-306 | Such a call answers with the first source that has the template, if no source has changed since that moment |
| OldReadings.InvalidationCleans | src/dj_hyperview/cache.py:282-296 | After a confirmed invalidation nothing from before it is held or still to be stored under the generation that is there, unless that was added by a resolver with such a reading |
| OldReadings.StepKeepsClean | src/dj_hyperview/cache.py:440-472 | Every step of every process, failures included, leaves a generation under which nothing old is held or pending as it is |
| CacheProtocol.StaleFreedomWithoutEviction | src/dj_hyperview/cache.py:245-256 | It is enough that the generation key is not evicted between the start of the invalidation and the resolver's read of it; earlier and later evictions do no harm |
| CacheProtocol.EvictionBreaksStaleFreedom | src/dj_hyperview/resolver.py:288-304 | A whole run from an empty backend in which an invalidation returns normally, the key is evicted, and a later call is answered with what its source has not held since the invalidation began |
| CacheProtocol.StepKeepsFresh | src/dj_hyperview/cache.py:282-296 | Every step of every process, evictions included, keeps the invariant behind stale freedom: whatever token follows the one an invalidator read was crowned after the invalidation began |
| CacheProtocol.StepKeepsBase | src/dj_hyperview/resolver.py:274-373 | Every step, evictions and failures included, keeps entries genuine, readings in source order with misses before the last, and publications no older than the token they go under, which for an added token is the first reading of the resolver that added it |
| CacheProtocol.TokensNeverReturn | src/dj_hyperview/cache.py:212-256 | In every run, evictions included, a token that has been replaced or lost never becomes current again |
| CacheProtocol.LatePublicationsAreUnread | src/dj_hyperview/cache.py:454-472 | A resolver that reads the generation after a token stopped being current never works under that token, so nothing stored under it late is looked up |
| CacheProtocol.Transparency | src/dj_hyperview/resolver.py:274-306 | From every reachable state, whatever was changed and cached before: a resolve that ends normally answers with the first source that has the template, if no source has changed since the earliest of the readings it got |
| CacheProtocol.TransparencyAfterInvalidation | src/dj_hyperview/resolver.py:274-306 | After sources have changed, a confirmed invalidation makes the cache transparent again for every resolver that reads the generation later, under the condition of stale freedom |
| Resolving.RaisesIff | src/dj_hyperview/resolver.py:308-373 | In every run: a call in raise mode raises if and only if one of its own operations failed: a source that is down, a backend operation that reports a failure, or a generation that is gone where the call must find one. A miss, an expiry or an invalidation never makes it raise |
| Resolving.BypassRaisesIff | src/dj_hyperview/resolver.py:308-373 | In bypass mode a call raises if and only if a source it reads is down |
| Resolving.UnconfirmedIsDiscarded | src/dj_hyperview/cache.py:454-472 | In every run: behind a confirmation that fails or finds another generation, the next thing the call does is to delete what it has set, and what the backend deletes is gone |
| Resolving.InvalidationFailsIff | src/dj_hyperview/cache.py:282-296 | In every run an invalidation fails if and only if one of its own operations failed, or its confirming read found the old generation or none |
| UndisturbedCalls.UndisturbedCall | src/dj_hyperview/resolver.py:274-373 | From every reachable state, in both modes: a call that nothing disturbs ends after at most three operations and four for each source, with the first template that the cache or a source shows, and asks no source behind it. A miss that may be kept is in the store afterwards, one that may not is not, and nothing else has changed there; a generation is added exactly if there was none, a template was found and something is kept |
| CacheProtocol.UndisturbedInvalidation | src/dj_hyperview/cache.py:282-296 | From every reachable state with a generation, an invalidation that nothing disturbs returns normally under a new generation |
| CacheProtocol.UndisturbedFirstInvalidation | src/dj_hyperview/cache.py:212-296 | From every reachable state without a generation, an undisturbed invalidation adds one, rotates it and returns normally |
| CacheProtocol.EvictionRevivesOldReadings | src/dj_hyperview/resolver.py:288-304 | In any run that has lost the generation while a resolver that saw none is about to add one, five named steps answer a new call with that resolver's old reading |
| Fingerprint.TextInjective | src/dj_hyperview/resolver.py:62-65 | The canonical JSON text determines the normal form it was printed from |
| Fingerprint.SortIsCanonical | src/dj_hyperview/resolver.py:118-124 | Sorting the pairs of a mapping by their text gives equal lists exactly for equal multisets of pairs |
| Fingerprint.NumberKeyAgrees | src/dj_hyperview/resolver.py:73-83 | Numeric dictionary keys have equal normal forms exactly if they are equal as rational numbers, whatever their types |
| Fingerprint.EqualTextsAreSameValues | src/dj_hyperview/resolver.py:91-128 | Two option values have equal canonical text exactly if they are the same tree of the same types, up to the order of dictionary entries at every depth |
| Fingerprint.IdentitiesAreExact | src/dj_hyperview/resolver.py:131-138 | Two sources share an identity exactly if position, backend and options are the same |
| Fingerprint.IdentityIffSupported | src/dj_hyperview/resolver.py:91-138 | A source has an identity exactly if no unsupported value and no callable without an import path is anywhere in its options |
| TemplateLexer.ForwardFind.FindNext | src/dj_hyperview/_template_lexer.py:14-29 | The memoised search answers like a fresh one for starts that never go back, remembers exactly what it must, and adds to the work exactly the positions it tries: none if the remembered answer still holds |
| TemplateLexer.SearchedOnce | src/dj_hyperview/_template_lexer.py:14-29 | What a search tries is taken out of the room behind the marker's last hit, so no position is tried twice for one marker |
| TemplateLexer.Scanner.Next | src/dj_hyperview/_template_lexer.py:32-57 | Each call yields the next opener of the engine's definition with its end and line end, passes over nothing, and does exactly its share of the work of the scan |
| TemplateLexer.RestIsLinear | src/dj_hyperview/_template_lexer.py:32-57 | From any position and any remembered answers, the positions that the opener search and the marker searches still try are at most one per character left and the room of the four markers |
| TemplateLexer.WorkIsLinear | src/dj_hyperview/_template_lexer.py:32-57 | A whole scan tries at most five positions per character, and four more |
| TemplateLexer.NaiveTagsAreLeftmost | src/dj_hyperview/_template_lexer.py:32-57 | The lazy engine finds tags that are disjoint, in order, shortest on their line, and leaves none out |
| TemplateLexer.LeftmostTagsAreUnique | src/dj_hyperview/_template_lexer.py:60-64 | Those properties determine the list of tags |
| TemplateLexer.TagIsClosed | src/dj_hyperview/_template_lexer.py:32-57 | A tag of each kind, written out on one line, ends behind the first occurrence of the two characters that close its kind |
| TemplateLexer.TagSpans | src/dj_hyperview/_template_lexer.py:60-64 | The scan yields exactly the tags of the lazy engine, and the positions it tried are the work of the definition, within the linear bound |
| TemplateLexer.CostIsWastedReads | src/dj_hyperview/_template_lexer.py:67-88 | The sum over unclosed openers is the work that the lazy engine wastes on them |
| TemplateLexer.UnclosedCost | src/dj_hyperview/_template_lexer.py:67-88 | The count is the full sum, or it stopped early and is above the limit |
| TemplateLexer.WastedReadsBound | src/dj_hyperview/_template_lexer.py:91-109 | The sum is at most the number of braces times the longest line |
| TemplateLexer.UnclosedCostExceeds | src/dj_hyperview/_template_lexer.py:91-109 | The early answer and the scan together say whether the full sum exceeds the limit, for sources with a brace |
| TemplateLexer.ExceedsIsExactIff | src/dj_hyperview/_template_lexer.py:91-109 | The answer is the exact one if and only if the limit is not negative or the source has a brace (`EmptySourceIsCleared` gives the failing inputs) |
| TemplateLexer.Tokenize | src/dj_hyperview/_template_lexer.py:112-131 | The tokens tile the source without gaps or empty spans, each with one plus the line breaks before it, their texts are the source, and their tags are exactly the engine's |
| TemplateLexer.TokensAreDetermined | src/dj_hyperview/_template_lexer.py:112-131 | Tiling, the tags and undivided text leave one possible list of tokens |
| DeclarationScan.ContainsForbiddenDeclaration | src/dj_hyperview/validation.py:116-141 | For rendered documents the jumping scan answers like the scan that looks at every character outside comments, CDATA and instructions, and its counted work is that of the definition |
| DeclarationScan.WorkIsLinear | src/dj_hyperview/validation.py:116-141 | That work, the substring tests included, is at most seven positions per character, and five more |
| TreeLimits.CheckLimits | src/dj_hyperview/validation.py:266-285 | The walk accepts exactly the documents within node count, depth and attributes; a rejection names an exceeded bound; at most one node beyond the limit is visited |
| TreeLimits.CheckNamespaceScope | src/dj_hyperview/validation.py:214-249 | The walk accepts a document exactly if at every element the path has at most 32 declarations and 8 distinct prefixes |
| TreeLimits.WalkNode | src/dj_hyperview/validation.py:214-249 | Walking the events of a tree within the caps leaves the stack of declarations as it was; otherwise it fails |
| HxmlTemplate.ParseIsExact | src/dj_hyperview/static/dj_hyperview/admin/hxml_editor.js:180-295 | The stack parser returns a tree exactly if that tree spells the tokens, elements close by name, Django blocks begin, branch and end among the same siblings, and exactly the right elements are preserved |
| HxmlTemplate.ParseSpells | src/dj_hyperview/static/dj_hyperview/admin/hxml_editor.js:180-295 | A tree the parser returns loses no token and marks exactly the elements to preserve |
| HxmlTemplate.DoomedFails | src/dj_hyperview/static/dj_hyperview/admin/hxml_editor.js:185-219 | A block left open by an element that was closed can never end, so the template is refused |
| HxmlFormatter.FormatIsLossless | src/dj_hyperview/static/dj_hyperview/admin/hxml_editor.js:296-319 | The output parses to the same tree up to text between the children of rewritten elements, preserved subtrees whole, and formatting it again changes nothing |
| HxmlFormatter.FormatKeepsTokens | src/dj_hyperview/static/dj_hyperview/admin/hxml_editor.js:296-319 | Every token that is not only whitespace is kept, in order |
| HxmlFormatter.FormatKeepsTextsApart | src/dj_hyperview/static/dj_hyperview/admin/hxml_editor.js:259-268 | In the output no text stands next to text, so lexing it again finds the same tokens |
| HxmlFormatter.FormatFailsExactly | src/dj_hyperview/static/dj_hyperview/admin/hxml_editor.js:293-295 | Formatting fails exactly for templates without a proper tree |
| HxmlFormatter.RenderTreeSpells | src/dj_hyperview/static/dj_hyperview/admin/hxml_editor.js:296-319 | The rendered string is the reformatted tree, written out |
| HxmlFormatter.FormatHxml | src/dj_hyperview/static/dj_hyperview/admin/hxml_editor.js:321-327 | The parsing loop succeeds exactly if the tokens have a proper tree; the value is then the formatted tokens written out, and else the source unchanged |
| HxmlLayout.FormatLaysOut | src/dj_hyperview/static/dj_hyperview/admin/hxml_editor.js:296-319 | Read from the tokens of the output: in a root that is not preserved, and in every element below it that is not preserved, is in no preserved one and has a child other than text, each such child stands directly behind a text that is one line break and two spaces for each open ancestor, the closing tag behind one with two spaces fewer, and there is no other text; nothing stands before the first child of the root |
| HxmlLayout.ParsePreservesRight | src/dj_hyperview/static/dj_hyperview/admin/hxml_editor.js:186-284 | Exactly these are marked as preserved, at every depth: an element that is not one of the twelve structural elements of the Hyperview namespace in its scope, one that asks for its whitespace, and one (or the root) with a child around which whitespace may show |
| DjangoMarkers.ProtectDjango | src/dj_hyperview/static/dj_hyperview/admin/hxml_editor.js:18-30 | The prefix does not occur in the source, and every token gives way to the prefix and its number |
| DjangoMarkers.RestoreProtectIff | src/dj_hyperview/static/dj_hyperview/admin/hxml_editor.js:18-37 | Restoring a protected source gives the source back if and only if no Django token is followed by a digit at once |
| DjangoMarkers.DigitIsLost | src/dj_hyperview/static/dj_hyperview/admin/hxml_editor.js:32-37 | A digit behind a token is read as part of the marker's number, and the restored text differs (`VariableBeforeDigit` works the shortest input out) |
| Splicing.FlattenKeepsLines | src/dj_hyperview/contrib/database/admin_validation.py:421-425 | The text that replaces a tag has the tag's line breaks, and at most the bytes of both |
| Splicing.FlattenTakesThePlace | src/dj_hyperview/contrib/database/admin_validation.py:421-425 | It is the included text with a space for each `\r\n`, `\r` or `\n` and every other character in its place, and then exactly the line break characters of the tag in their order |
| Splicing.PlainTextStandsWhole | src/dj_hyperview/contrib/database/admin_validation.py:421-425 | Included text without line breaks stands whole |
| Splicing.SubstitutedIsSpliced | src/dj_hyperview/contrib/database/admin_validation.py:548-555 | What replaces each span stands at its position, and all characters before, between and behind the spans are as they were |
| Splicing.ReplaceFromTheEnd | src/dj_hyperview/contrib/database/admin_validation.py:553-555 | Splicing from the last span to the first equals replacing all spans at once |
| Splicing.SortedAscends | src/dj_hyperview/contrib/database/admin_validation.py:553-553 | Sorting replacements that do not overlap puts them in ascending order and loses none |
| Splicing.LiteralsKeepTheirLines | src/dj_hyperview/contrib/database/admin_validation.py:421-425 | Every character outside the replaced spans is kept, with as many line breaks before it |
| IncludeExpansion.Admit | src/dj_hyperview/contrib/database/admin_validation.py:488-529 | A resolver call is made only while the budget lasts; it uses one of 64 edges, and a target that makes the result too large exhausts the budget |
| IncludeExpansion.Expand | src/dj_hyperview/contrib/database/admin_validation.py:445-555 | The result is the content with includes replaced by expansions of what the resolver answered for their targets, all of them if nothing is noted; at no depth is a template of the stack, or one that is being expanded, a target again; 64 calls in total, none after exhaustion, at most one exhaustion note |
| IncludeExpansion.ExpandDraft | src/dj_hyperview/contrib/database/admin_validation.py:911-921 | For a draft within MAX_BYTES the expansion is within MAX_BYTES; at the place of each replaced tag stands the expansion of its target on one line with the tag's line breaks, everything else is as it was, and every literal character of the draft stays on its line |
| Marker.MarkerIsUnused | src/dj_hyperview/contrib/database/admin_validation.py:177-193 | The marker does not occur in the text and is its base with at most eight digits |
| Marker.MarkerIsAbsent | src/dj_hyperview/contrib/database/admin_validation.py:267-270 | The marker of any base that does not overlap itself occurs neither in the source nor in the source with its references resolved |
| Marker.MarkersAreAbsent | src/dj_hyperview/contrib/database/admin_validation.py:267-270 | Both markers of a scan, if they are made, are absent from both texts |
| Marker.DecodedIsResolved | src/dj_hyperview/contrib/database/admin_validation.py:156-174 | The expression with bounded digits decodes exactly the references, of any length, that name a character |
| MaskedSource.AdvanceXmlState | src/dj_hyperview/contrib/database/admin_validation.py:196-227 | Jumping from delimiter to delimiter ends in the state that reading every character ends in |
| MaskedSource.Mask | src/dj_hyperview/contrib/database/admin_validation.py:260-354 | The mask is made exactly if the source and its markers fit four times the limit, and `MaskedTags.TagsAreMasked` says what it is made of |
| MaskedTags.TagsAreMasked | src/dj_hyperview/contrib/database/admin_validation.py:288-347 | What stands in the mask at the place of each token that no comment or verbatim block holds: literal text as it is; the value marker and blanks for a variable in a quoted attribute or one in text that is not marked safe, and for a block tag in a quoted attribute or one of the nine scalar tags; the structure marker and blanks for the other variables and block tags; blanks alone for the rest. The XML context is that of the literal text before the token |
| MaskedTags.LiteralTextLeadsTo | src/dj_hyperview/contrib/database/admin_validation.py:196-227 | Where literal text leads: from text into a tag, into a quoted attribute, and back |
| MaskedTags.SectionsLeadTo | src/dj_hyperview/contrib/database/admin_validation.py:196-227 | Comments, CDATA sections and processing instructions hold until their own end |
| MaskedSource.MaskIsBounded | src/dj_hyperview/contrib/database/admin_validation.py:272-278 | The masked document takes at most four times MAX_BYTES |
| MaskedSource.MaskMeasures | src/dj_hyperview/contrib/database/admin_validation.py:260-354 | Masking keeps the number of lines and adds no bytes but the markers |
| MaskedSource.LiteralsStay | src/dj_hyperview/contrib/database/admin_validation.py:288-294 | Every literal character outside comments and verbatim blocks is kept on its line |
| MaskedSource.MaskedDocumentMeasures | src/dj_hyperview/contrib/database/admin_validation.py:260-354 | The document for the XML parser, declarations blanked, is within four times MAX_BYTES and has the lines of the source |
| MaskedSource.LiteralsStayInDocument | src/dj_hyperview/contrib/database/admin_validation.py:145-147 | Every literal character is in that document on its own line, unchanged unless it is inside a closed declaration of the masked source, where it is a blank if it is no line break |
| MaskedSource.GeneratedMarkersArePlain | src/dj_hyperview/contrib/database/admin_validation.py:267-270 | The markers that are made are ASCII and on one line, so the byte count of the mask holds |
| MaskedSource.BlankXmlDeclarations | src/dj_hyperview/contrib/database/admin_validation.py:230-244 | Going from opening to opening blanks what reading every character blanks |
| MaskedSource.DeclarationEndsAsInXmlIff | src/dj_hyperview/contrib/database/admin_validation.py:230-244 | The end taken for a declaration is the one XML takes if and only if `?>` does not follow `<?xml` at once (`EndBehindNameIsMissed` gives the shortest such input) |
| MaskedSource.DeclarationsKeepPositions | src/dj_hyperview/contrib/database/admin_validation.py:230-244 | Blanking keeps every position; exactly the characters of closed declarations become blanks, and line breaks stay |
| Subscription.Queue.constructor | src/dj_hyperview/realtime/_subscription.py:96-105 | A subscription starts with a pending resync and nothing delivered |
| Subscription.Queue.Put | src/dj_hyperview/realtime/_subscription.py:124-132 | The queue stays within 32 and coherent: a pending resync is all it holds, and otherwise it is the tail of what arrived |
| Subscription.Queue.Take | src/dj_hyperview/realtime/_subscription.py:110-118 | With any number of waits, a wait that ends takes the first thing queued: on an open subscription the pending resync, or the next hint that arrived; the first one to end after a close gets the end or a resync |
| Subscription.CloseAndTake | src/dj_hyperview/realtime/_subscription.py:110-160 | A close, any late hints, then every wait that can end: exactly which answers the waits get and how many are left. The first gets the end if and only if a resync was due or fewer than 32 hints came late, and a resync otherwise; without late hints every wait ends if and only if there was at most one |
| Subscription.Queue.BeginClose | src/dj_hyperview/realtime/_subscription.py:155-160 | The first close replaces what is queued by the end; a second one changes nothing |
| Subscription.Queue.Pump | src/dj_hyperview/realtime/_subscription.py:134-153 | Valid data is queued as an arrival, silence changes nothing, anything else closes |
| Subscription.Queue.NothingIsLost | src/dj_hyperview/realtime/_subscription.py:95-132 | Every hint that arrived was delivered, is queued at its place, or is covered by a resync taken or to be taken after it arrived |
| Subscription.EveryArrivalIsExplained | src/dj_hyperview/realtime/_subscription.py:95-132 | Every arrival before the next one due was delivered or is covered by a resync that the consumer took later |
| Subscription.BlocksAreContiguous | src/dj_hyperview/realtime/_subscription.py:124-132 | Between two resyncs the consumer gets a contiguous block of arrivals, starting where the first one covers up to |
| Subscription.HintsAreInOrder | src/dj_hyperview/realtime/_subscription.py:110-132 | Hints are delivered in the order of arrival, none twice |
| Subscription.DroppedInOverflows | src/dj_hyperview/realtime/_subscription.py:124-132 | A hint before the next one due was dropped if and only if it lies in the gap of a resync; nothing of a gap is ever delivered, and every gap but the first holds more hints than the queue |
| Subscription.Acknowledge | src/dj_hyperview/realtime/_subscription.py:173-200 | The loop is ready at the first moment every channel is acknowledged, if every message before is proper, and refuses at the first that is not |
| Subscription.EachChannelOnce | src/dj_hyperview/realtime/_subscription.py:185-198 | Proper messages acknowledge no channel twice and none that was not asked for |
| Publisher.Worker.Discard | src/dj_hyperview/realtime/_publisher.py:54-58 | The entry lets its client go and the client is closed, once, whatever closing raises |
| Publisher.Worker.Send | src/dj_hyperview/realtime/_publisher.py:68-98 | A sent job began before its deadline and its call returned; a failed one failed because a call did or it was late, leaves no client, counts one failure, and from the third in a row opens the breaker for the cooldown |
| Publisher.Worker.Sweep | src/dj_hyperview/realtime/_publisher.py:143-161 | Afterwards no entry is idle, old or forgettable, only forgettable ones are gone, and no window that a caller may ask about has changed |
| Publisher.Worker.Serve | src/dj_hyperview/realtime/_publisher.py:176-187 | A job that does not end the worker is sent, has failed by a call or a deadline, or was left out because it was late or a window that had been opened was open; the last sweep is less than the idle time ago |
| Publisher.Worker.Run | src/dj_hyperview/realtime/_publisher.py:163-209 | For all readings of the clock and outcomes of library calls: every job reached before a fatal outcome has its own part of the log, in order, which is a send in time that succeeded, a failed attempt, or nothing, each with its cause; a job on time with no window open and no failing call is sent; the worker ends early only by a fatal call. No send begins in a window opened before it, breakers open only after three failures in a row, and at the end every client is closed whatever was raised |
| PublisherHandoff.RunsAreSound | src/dj_hyperview/realtime/_publisher.py:112-217 | Every interleaving keeps jobs queued once, within 32, and every waiting caller's job in the queue, in hand or done |
| PublisherHandoff.NobodyIsStranded | src/dj_hyperview/realtime/_publisher.py:191-201 | In every continuation of a run after the worker has released the queue, whatever other threads do in between, a caller moves at most twice more, and until it has returned it can move without a time-out |
| PublisherHandoff.SuccessMeansSentOnce | src/dj_hyperview/realtime/_publisher.py:112-137 | A call that reports success had its job sent, and no job is served twice |
| PublisherHandoff.FailsIffTurnedAway | src/dj_hyperview/realtime/_publisher.py:112-137 | In every run a call fails if and only if it was late or its breaker open, the worker had stopped, the queue was full, its wait timed out, or its job was finished unsent |
| PublisherHandoff.ServedInOrder | src/dj_hyperview/realtime/_publisher.py:163-202 | In every run the jobs that were put are, in order, those that were tried, those the ending worker dropped, and those still queued |
| PublisherHandoff.UndisturbedCall | src/dj_hyperview/realtime/_publisher.py:112-187 | From every reachable state with a free worker that has not been stopped and an empty queue, a call on time succeeds by eight undisturbed steps |
| PublisherHandoff.EndingEnds | src/dj_hyperview/realtime/_publisher.py:163-209 | In every continuation of a run after the stop flag is set, wherever the worker stands, it takes no more steps than the queue was long, six, one for each caller past its check at the stop, and one for each `None` put since; until it has ended it can take a step |
| HeaderParameters.HeaderReadsBack | src/dj_hyperview/http.py:62-98 | A header is printed exactly if every parameter is accepted, and is then split into the media type and the printed parameters, and every key and value reads back |
| HeaderParameters.ParameterRefusedIff | src/dj_hyperview/http.py:62-70 | A parameter is refused exactly if its name is empty or holds a delimiter or a character that is not visible, or its value holds a control character other than a tab or a character above U+FF, or ends in a backslash |
| HeaderParameters.PieceIsWhole | src/dj_hyperview/http.py:62-73 | The splitting rule neither cuts an accepted parameter nor leaves its quotes open |
| HeaderParameters.TrailingBackslashIsNotWhole | src/dj_hyperview/http.py:62-70 | A quoted value that ends in a backslash would leave the quotes open, which is why it is refused |
| HeaderParameters.UnquotedIsInverse | src/dj_hyperview/http.py:71-73 | Unquoting a printed value gives the value |
| HeaderParameters.HasExtendedName | src/dj_hyperview/http.py:41-59 | The loop finds an extended name exactly if some piece of the split header has one, with the whitespace that `str.strip` knows |
| HeaderParameters.ReadsBack | src/dj_hyperview/http.py:41-73 | A printed parameter reads back, and counts as extended exactly if its key ends in a star |
| ResponseBody.Candidate | src/dj_hyperview/http.py:138-174 | The content is collected exactly if every chunk can be encoded and the whole fits the limit |
| ResponseBody.Response.SetCandidate | src/dj_hyperview/http.py:193-206 | The body is replaced exactly if no gzip form stands under an encoding, the status allows it and the document is valid; otherwise nothing changes |
| ResponseBody.Response.SetGzipTransport | src/dj_hyperview/http.py:208-233 | Bytes are taken as the gzip form exactly if they decode to the whole body, which is still valid; otherwise nothing changes |
| ResponseBody.Response.Assign | src/dj_hyperview/http.py:273-290 | An assignment suppresses a HEAD body, adds a gzip form or replaces the body, each exactly when it may; a failed one changes nothing |
| ResponseBody.Response.Write | src/dj_hyperview/http.py:329-347 | A write appends all chunks exactly if the body can be read, the chunks can be encoded and fit the limit, and the whole may be set; otherwise it changes nothing |
| ResponseBody.Response.Render | src/dj_hyperview/http.py:479-502 | The first rendering commits the rendered document exactly if the status allows it and it is valid under the contract of now; otherwise, and when rendered before, nothing changes |
| ResponseBody.Response.Emission | src/dj_hyperview/http.py:292-305 | The exact condition for sending; what is sent decodes to the validated body, by gzip exactly if the Content-Encoding spells `gzip` in any case, or is empty for a bodyless status or a suppressed HEAD |
| SchemaGuard.GuardLocalReferences | src/dj_hyperview/schema.py:253-339 | The guard returns exactly the files at the reachable locations, all of them clean and at most 256; a refusal is justified by a reachable offence or by too many locations |
| SchemaGuard.RefusalsAreRight | src/dj_hyperview/schema.py:253-339 | A justified refusal means that the reachable locations are too many or one of them is not clean, so the guard accepts exactly the others |
| SchemaGuard.ClosedHoldsReached | src/dj_hyperview/schema.py:264-338 | A set that holds the references of its members holds everything reachable from them |

## Left out

- Template names, namespaces and aliases in cache keys: the model has one canonical name; keys are pairs of source and token, and hashing is taken as injective.
- Cache payloads: encoding and decoding of entries (src/dj_hyperview/cache.py:474-545) are not modelled; an entry is what was stored. Time limits of entries are expiries at any moment.
- Backend honesty: `add` is atomic and tells the truth when it reports success or refusal, and tokens are fresh, as 128 bits of entropy make them.
- Cache classes: `TemplateCache` and `TemplateResolver` are step machines and not classes, because the claims are about interleavings inside one call.
- CacheProtocol.StaleFreedom: excepts tokens that a resolver with an older reading added, because the code gives no bound there (`CacheProtocol.EvictionBreaksStaleFreedom`); `OldReadings.CleanPeekIsRecent` covers those under which nothing old is left.
- Fingerprint.TextInjective: Python's shortest `repr` of floats is replaced by an injective text of the exact ratio, and strings hold no lone surrogates.
- Fingerprint identities: SHA-256 and the import of callables are not modelled; a callable is the import path that leads back to it, or unsupported.
- DeclarationScan.ContainsForbiddenDeclaration: for rendered documents only; template source is filtered before its literals are joined (src/dj_hyperview/validation.py:124-127), so the equivalence is not stated for it.
- TemplateLexer.Tokenize: Django's classification of a tag's text, and the verbatim state of its lexer, are Django's own code.
- TreeLimits: the tree is given; parsing by lxml is not modelled.
- HxmlTemplate: the lexed spans are given; the lexing of tags, attributes, raw blocks and Django tokens (src/dj_hyperview/static/dj_hyperview/admin/hxml_editor.js:53-178) is not modelled. A tag carries what the parser reads of it.
- DjangoMarkers.RestoreProtectIff: marker numbers are exact, where JavaScript rounds numbers of more than 15 digits.
- Completion and the editor's wiring: not modelled.
- IncludeExpansion.Expand: compiling, resolving and the schema check are arbitrary functions, the resolver a different one at every call; the text and line of diagnostics are not modelled. Python's recursion limit may strike at any nested include.
- Marker.DecodedIsResolved: a reference to a surrogate code point is left as it is, where Python yields a lone surrogate; the XML parser refuses both.
- MaskedSource.Mask: the map of contexts and the lines of the first structure and verbatim tags are not part of the result; whether a variable is marked safe is given with its token.
- Subscription: decoding and validation of payloads, Redis clients and their closing with time limits are not modelled; a wait and its end are two steps.
- Publisher.Worker.Run: reads a finite list of arrivals; the readings of the clock, which never go back, and the outcomes of the calls into the client library are given in their order. `Fatal` outcomes between calls, such as an interrupt, are not modelled.
- PublisherHandoff: deadlines are time-outs that may strike at any moment; thread start and join are left out.
- HeaderParameters.HeaderReadsBack: Django's own header parser is not modelled; values are read as section 5.6.4 of RFC 9110 says.
- ResponseBody: validation and gzip decoding are arbitrary functions; the base classes of Django, callbacks after rendering and the cached `text` are left out.
- SchemaGuard: files do not change while the guard reads them; parsing, URL syntax and path resolution are given functions.
- The ORM, the admin views, settings and system checks, middleware, template tags, event shapes, the XSD catalog and duplicate declarations: framework calls or single branches that would add only easy members.
