# AmagiBot memory, emotion and knowledge core in Dafny

This project models the rule-based core of AmagiBot, a chat bot with long-term memory. It covers the following parts.

- **Memory encoder.** Derives a record's strength, memory type and key points from its text and metadata.
- **Memory sources.** Two MongoDB-backed sources sit behind one interface:
  - a conversation source, read newest first;
  - a knowledge source, ranked by a clamped relevance score.
- **Multi-source manager.** Registers sources by name and fans queries out to them. It merges answers by strength, routes writes to one named source, sums the statistics and consolidates similar memories.
- **Single-collection memory manager.** Has its own time-ordered consolidation.
- **Memory retriever.** Scores records by similarity × strength × (1 − decay) and renders a context string.
- **Keyword fallbacks.** These replace the language model in the memory analyzer, the emotion analyzer and the emotion reasoner.
- **Emotion manager.** Per-user state and behaviour log, and the rule that blends a new analysis into the current state.
- **Knowledge manager.** The chunker, learning from files with its counters, retrieval and statistics.
- **Prompt manager.** A registry of per-model prompt settings.

Modelling choices:

- **Stores.** Each MongoDB collection is a `map` from id to record plus the next id. Natural order is ascending id.
- **Dictionaries.** A Python dict whose order matters, such as the source registry or the prompt registry, is an insertion-ordered map (`OrderedMaps`).
- **Foreign code.** The embedding model, the cosine ratio and `exp` are function values in `Foreign.Env`. The model relies only on the facts listed in `Foreign.ValidEnv`.
- **Language-model replies.** The reply to a chat call is a parameter (`LlmReply.Reply`), so the fallback branches are modelled exactly for the reply shapes it can express (see "Left out").
- **Inputs from the environment.** Time is an integer number of seconds passed in as `now`. File contents are passed in too.
- **Exceptions.** Every exception is a `Failure` value. A pass that stops part-way returns the state it reached together with the error.

## Model

| member | source | states |
|---|---|---|
| Encoder.Strength | src/memory/core/memory_encoder.py:37-63 | fails exactly when one of `emotion_intensity`, `importance`, `time_decay` is present and not a number; otherwise the strength lies in [0,1] |
| Encoder.StrengthFormula | src/memory/core/memory_encoder.py:42-63 | the clamped additive formula always lies in [0,1], whatever the metadata numbers |
| Encoder.StrengthDefaults | src/memory/core/memory_encoder.py:42-63 | with none of the three keys, strength is 0.4 below 20 characters, 0.5 from 20 to 100, 0.6 above 100 |
| Encoder.StrengthFullDecay | src/memory/core/memory_encoder.py:60-63 | a `time_decay` of 1 forces strength 0 |
| Encoder.StrengthMonotone | src/memory/core/memory_encoder.py:52-63 | for a decay in [0,1], strength never drops as emotion intensity or importance grows |
| Encoder.NumberOr | src/memory/core/memory_encoder.py:52-60 | an absent key reads as its default; the read fails exactly when the present value is not a number |
| Encoder.TypePriority | src/memory/core/memory_encoder.py:65-83 | explicit beats procedural beats episodic, each reachable only through its flag, semantic otherwise |
| Encoder.SemanticFlagIrrelevant | src/memory/core/memory_encoder.py:79-83 | the `is_semantic` flag never changes the type |
| Encoder.KeyPointsOfAppend | src/memory/core/memory_encoder.py:85-97 | key points of concatenated segments are the concatenated key points, so source order is kept |
| Encoder.KeyPointsEmptyIff | src/memory/core/memory_encoder.py:85-97 | there are no key points exactly when no segment qualifies |
| Encoder.KeyPointShape | src/memory/core/memory_encoder.py:85-97 | every key point is non-empty, stripped, free of `。` and contains one of the four markers |
| Encoder.ContainsSurvivesStrip | src/memory/core/memory_encoder.py:91-95 | a marker found in a segment is still found after `strip()`, so the filter order does not matter |
| Encoder.Encode | src/memory/core/memory_encoder.py:12-35 | fails exactly when the strength fails; otherwise content and metadata are returned unchanged, the strength is the computed strength, the type is the one the metadata determines, and the key points are those extracted from the content |
| Encoder.EncodeBatch | src/memory/core/memory_encoder.py:99-106 | the result has min(len(contents), len(metadata)) encodings, each the encoding of its pair; fails exactly when some zipped pair fails |
| Foreign.DecayMonotone | src/memory/core/memory_retriever.py:156-164 | more elapsed days never decay less |
| Foreign.DecayBelowOne | src/memory/core/memory_retriever.py:156-164 | decay stays below 1 |
| Foreign.ElapsedDaysUnderADay | src/memory/core/memory_retriever.py:158-163 | a record less than a day old has zero elapsed days |
| Foreign.ElapsedDaysMonotone | src/memory/core/memory_retriever.py:158-163 | elapsed days grow with the current time |
| Store.Find | src/memory/sources/conversation_source.py:25-38 | returns exactly the owner's documents inside the inclusive time window, in insertion order: ids strictly ascending, so no document twice |
| Store.FindSorted | src/memory/sources/conversation_source.py:34-38 | a find with a sort and a MongoDB limit is sorted, has exactly min(|limit|, matches) documents (all for limit 0), and keeps the best-ranked of the owner's matching documents |
| Store.InsertOne | src/memory/sources/conversation_source.py:74 | the new document gets a fresh id and nothing else changes |
| Store.ScanInsert | src/memory/sources/conversation_source.py:74 | an insertion appends the document to the natural order |
| Store.FindInsert | src/memory/sources/conversation_source.py:74 | an insertion adds one document to its owner's find and none to anyone else's |
| Store.SetEncoded | src/memory/sources/conversation_source.py:85-98 | `$set` on one id rewrites only that document's encoded fields, leaving owner and creation time; an absent id is a no-op |
| Store.Delete | src/memory/sources/conversation_source.py:100-102 | removes exactly that id; an absent id is a no-op |
| Store.DeleteIdempotent | src/memory/sources/conversation_source.py:100-102 | deleting twice is deleting once |
| Store.DeleteOwner | src/memory/core/memory_manager.py:144-146 | keeps exactly the documents of other owners, unchanged |
| Store.AddEncoded | src/memory/sources/conversation_source.py:53-74 | fails exactly when the encoding fails; otherwise inserts one document holding the encoding, the metadata verbatim, the owner and `now` |
| Store.UpdateEncoded | src/memory/sources/conversation_source.py:76-98 | encodes first, so it fails even on an absent id; otherwise rewrites that id only |
| Store.CountType | src/memory/sources/conversation_source.py:111-117 | counts the documents of one type; positive exactly when the type occurs |
| Store.TypeCounts | src/memory/sources/conversation_source.py:110-117 | one entry per type that occurs, holding its positive count |
| Store.CountsAddUp | src/memory/sources/conversation_source.py:107-117 | the per-type counts add up to the total |
| Store.Latest | src/memory/sources/conversation_source.py:120-128 | `None` exactly when nothing matches, otherwise the greatest timestamp |
| Store.StatsFor | src/memory/sources/conversation_source.py:104-129 | the statistics of the owner's find: total, per-type counts and latest are those of exactly those documents, the total is the sum of the type counts, latest is `None` exactly when the total is 0 |
| Store.StatsOf | src/memory/sources/conversation_source.py:107-128 | the statistics of a document list: its length, its per-type counts adding up to it, and its greatest timestamp |
| Store.StatsMeaning | src/memory/sources/conversation_source.py:104-129 | the total is the number of distinct ids the owner holds, a type is counted exactly when one of them has it, and latest is the timestamp of one of them and bounds all their timestamps |
| Store.FindCountsOwned | src/memory/sources/conversation_source.py:25-38 | an unwindowed find returns one document per id the owner holds |
| Sorting.SortDesc | src/memory/core/multi_source_manager.py:43 | `sort(reverse=True)` is a non-increasing permutation that keeps equal keys in their order |
| Sorting.SortSortedIsIdentity | src/memory/core/multi_source_manager.py:149 | sorting an already sorted list changes nothing |
| Sorting.TopK | src/memory/core/multi_source_manager.py:43-46 | `sorted(...)[:k]` is sorted, has exactly min(k, len) items (len + k for a negative k), keeps the k best: everything it drops ranks no higher than anything it keeps; among equal keys it keeps the earliest, in input order; and it is a stable permutation when k covers the input |
| Sorting.TopKTieKeepsFirst | src/memory/core/multi_source_manager.py:43-46 | Python's sort is stable: of two equally ranked items with room for one, the first is kept |
| Sorting.TopLimit | src/memory/sources/conversation_source.py:34-38 | a MongoDB sort with a limit has exactly all items for limit 0, otherwise min(|limit|, len) items, sorted, and drops nothing that ranks above a kept item |
| Sorting.MongoLimit | src/memory/sources/conversation_source.py:37 | limit 0 keeps everything; otherwise the first |limit| items |
| Sorting.PyTake | src/memory/core/multi_source_manager.py:46 | `s[:k]` is a prefix of length min(k, len); a negative k drops from the end |
| ConversationSource.GetMemories | src/memory/sources/conversation_source.py:18-51 | the newest of the owner's documents inside the window, newest first: exactly min(|limit|, matches) of them (all for limit 0), and none dropped is newer than one kept |
| ConversationSource.NewestFirst | src/memory/sources/conversation_source.py:34-38 | results come in non-increasing timestamp order |
| ConversationSource.GetMemoriesComplete | src/memory/sources/conversation_source.py:25-38 | with limit 0 every matching document is returned |
| ConversationSource.QueryIgnored | src/memory/sources/conversation_source.py:18-38 | the query text does not affect the result |
| ConversationSource.AddMemory | src/memory/sources/conversation_source.py:53-74 | fails exactly when encoding fails; otherwise adds one document with the encoding and the metadata verbatim |
| ConversationSource.UpdateMemory | src/memory/sources/conversation_source.py:76-98 | rewrites the encoded fields of that id only; an absent id changes nothing |
| ConversationSource.DeleteMemory | src/memory/sources/conversation_source.py:100-102 | removes that id; deleting again changes nothing |
| ConversationSource.GetMemoryStats | src/memory/sources/conversation_source.py:104-129 | the total, the type counts and latest are those of the owner's documents; the counts add up to the total; latest is `None` exactly when the total is 0 |
| KnowledgeSource.Relevance | src/memory/sources/knowledge_source.py:139-162 | defaults `general` and 0.5; fails exactly when a present confidence is not a number; otherwise the score lies in [0,1] |
| KnowledgeSource.RelevanceFormula | src/memory/sources/knowledge_source.py:142-162 | the clamped score always lies in [0,1] |
| KnowledgeSource.RelevanceUnclamped | src/memory/sources/knowledge_source.py:142-162 | with a confidence in [0,1] the clamp never binds and the score lies in [0.3, 0.9] |
| KnowledgeSource.RelevanceDefaults | src/memory/sources/knowledge_source.py:142-160 | with neither key, the score is 0.4 below 50 characters, 0.5 from 50 to 200, 0.6 above 200 |
| KnowledgeSource.RelevanceMonotone | src/memory/sources/knowledge_source.py:157-160 | a higher confidence never lowers the score |
| KnowledgeSource.GetMemories | src/memory/sources/knowledge_source.py:18-51 | the most relevant of the owner's documents inside the window, in non-increasing relevance: exactly min(|limit|, matches) of them, and none dropped is more relevant than one kept |
| KnowledgeSource.AddMemory | src/memory/sources/knowledge_source.py:53-78 | fails exactly when encoding or scoring fails; otherwise one document with the metadata verbatim and a score in [0,1] |
| KnowledgeSource.UpdateMemory | src/memory/sources/knowledge_source.py:80-106 | re-encodes and re-scores that id only; an absent id changes nothing |
| KnowledgeSource.DeleteMemory | src/memory/sources/knowledge_source.py:108-110 | removes that id; deleting again changes nothing |
| KnowledgeSource.GetMemoryStats | src/memory/sources/knowledge_source.py:112-137 | the total, the type counts and latest are those of the owner's documents; the counts add up to the total; latest is `None` exactly when the total is 0 |
| Sources.Name | src/memory/sources/base.py:10-12 | the name is "conversation" exactly for the conversation store and "knowledge" exactly for the knowledge store |
| Sources.GetMemories | src/memory/sources/base.py:15-21 | either source returns the best of the owner's documents inside the window by its own order (newest, or most relevant): exactly min(|limit|, matches) of them, sorted, none dropped ranking above one kept |
| Sources.AddMemory | src/memory/sources/base.py:24-29 | fails when encoding fails, and otherwise only on the knowledge source's scoring; a success keeps the name and adds one document |
| Sources.UpdateMemory | src/memory/sources/base.py:32-37 | keeps the name and the ids; rewrites that id only |
| Sources.DeleteMemory | src/memory/sources/base.py:40-42 | keeps the name and removes that id |
| Sources.GetMemoryStats | src/memory/sources/base.py:45-47 | the total, the type counts and latest are those of the owner's documents; latest is `None` exactly when the total is 0 |
| MultiSource.RegisterSource | src/memory/core/multi_source_manager.py:11-14 | keyed by the source's own name; re-registering replaces that entry and keeps its position; others are unchanged |
| MultiSource.Selected | src/memory/core/multi_source_manager.py:26-30 | `None` or an empty list selects every source in registration order; otherwise each registered name given, as often as it is given, and no other |
| MultiSource.SelectedAppend | src/memory/core/multi_source_manager.py:26-30 | names are selected in the order given: selecting from two lists in a row is selecting from each, concatenated |
| MultiSource.GetMemories | src/memory/core/multi_source_manager.py:16-46 | exactly min(limit, fetched) hits (fetched + limit for a negative limit) in non-increasing strength, the strongest of everything the selected sources returned, equal strengths kept earliest-fetched first, each a current document of a selected source owned by the user inside the window |
| MultiSource.GetMemoriesStable | src/memory/core/multi_source_manager.py:43-46 | when the limit does not cut, the result is a stable strength-sorted permutation of everything fetched |
| MultiSource.UnknownNamesOnly | src/memory/core/multi_source_manager.py:26-30 | a non-empty list of unregistered names yields nothing |
| MultiSource.AddMemory | src/memory/core/multi_source_manager.py:48-61 | an unknown name raises `ValueError` and touches nothing; otherwise exactly the named source changes |
| MultiSource.UpdateMemory | src/memory/core/multi_source_manager.py:63-76 | an unknown name raises `ValueError`; otherwise exactly the named source changes |
| MultiSource.DeleteMemory | src/memory/core/multi_source_manager.py:78-83 | raises exactly on an unknown name; otherwise only the named source loses that id |
| MultiSource.MergedCounts | src/memory/core/multi_source_manager.py:99-103 | a type appears when some source reports it, with the counts summed over sources |
| MultiSource.LatestOf | src/memory/core/multi_source_manager.py:105-110 | `None` exactly when every source has none; otherwise the greatest non-`None` time |
| MultiSource.GetMemoryStats | src/memory/core/multi_source_manager.py:85-118 | per-source stats in registration order; the overall total is the sum of the per-source totals, the overall type counts are the merged per-source counts and latest is the latest over sources |
| MultiSource.OverallCountsAddUp | src/memory/core/multi_source_manager.py:93-103 | the summed totals equal the sum of the merged type counts |
| MultiSource.Similarity | src/memory/core/multi_source_manager.py:191-203 | 0 when either embedding has zero norm; the cosine otherwise |
| MultiSource.MergedMeta | src/memory/core/multi_source_manager.py:163-170 | the keys of both metadata plus `merged_from`; `merged_from` lists the left then the right id; any other key has the right's value when the right has it, else the left's |
| MultiSource.MergePair | src/memory/core/multi_source_manager.py:172-184 | an unknown left source raises; a success keeps the registry well formed |
| MultiSource.MergePairFrame | src/memory/core/multi_source_manager.py:172-184 | a merge leaves every other source as it was, removes only the right document, and keeps every record other than the two it names |
| MultiSource.MergePairEffect | src/memory/core/multi_source_manager.py:158-184 | a merge rewrites the left memory with the merged text and metadata and removes the right one |
| MultiSource.ApplyMergesFrame | src/memory/core/multi_source_manager.py:152-189 | a document no merge names keeps its record, even when the pass stops early |
| MultiSource.ApplyMergesKeys | src/memory/core/multi_source_manager.py:152-189 | a pass without an exception removes exactly the right-hand documents, each from its own source |
| MultiSource.ApplyMergesRewrites | src/memory/core/multi_source_manager.py:158-189 | after a pass without an exception, a merge's left document holds the merged text and metadata, unless an earlier merge removed it or a later one names it |
| MultiSource.ConsolidateGroup | src/memory/core/multi_source_manager.py:141-189 | a group of at most one memory is left alone; otherwise the registry stays well formed |
| MultiSource.GroupMergesMembers | src/memory/core/multi_source_manager.py:148-189 | every planned merge pairs two members of the group |
| MultiSource.ConsolidateGroupKeys | src/memory/core/multi_source_manager.py:141-189 | a group pass without an exception removes exactly the right-hand documents of its planned merges |
| MultiSource.GroupFrame | src/memory/core/multi_source_manager.py:141-189 | a document outside the group keeps its record |
| MultiSource.GroupsFrame | src/memory/core/multi_source_manager.py:137-139 | a document outside every group keeps its record through all the group passes |
| MultiSource.ConsolidateMemories | src/memory/core/multi_source_manager.py:120-139 | the pass keeps every source registered and the registry well formed |
| MultiSource.OtherOwnersUntouched | src/memory/core/multi_source_manager.py:120-139 | consolidating one user's memories never touches another user's memory, in any source |
| MultiSource.GroupSortIsIdentity | src/memory/core/multi_source_manager.py:123-149 | a type group drawn from the strength-sorted fetch is already sorted, so the group's sort changes nothing |
| Consolidation.PlanCounts | src/memory/core/multi_source_manager.py:152-189 | each merge removes one element, so merges plus survivors account for the list; a list shorter than 2 is left alone |
| Consolidation.PlanOutcome | src/memory/core/multi_source_manager.py:152-189 | every merged pair was similar with a surviving left element, and no two neighbouring survivors are similar |
| Consolidation.PlanPartition | src/memory/core/multi_source_manager.py:181-187 | every snapshot is either deleted by exactly one merge or survives |
| Consolidation.PlanDisjoint | src/memory/core/memory_manager.py:112-142 | on a list without repeats, no snapshot is deleted twice or deleted after serving as a left side |
| Consolidation.RunWalk | src/memory/core/memory_manager.py:112-142 | the `while` loop with its index and shrinking list terminates and performs exactly the planned merges |
| Consolidation.StaleLeftPlan | src/memory/core/memory_manager.py:112-140 | as written, a first snapshot similar to the next two merges with both through its original text |
| Consolidation.RefreshedPlan | src/memory/core/memory_manager.py:112-140 | the corrected walk merges the merged item with the third, leaving one item |
| Consolidation.RefreshedPlanKeepsText | src/memory/core/memory_manager.py:125 | the corrected walk keeps all the text: survivors joined by newlines equal the originals joined |
| Consolidation.GroupBy | src/memory/core/memory_manager.py:91-97 | one non-empty group per distinct type, each group exactly the memories of its type in their original order |
| Consolidation.GroupByOrder | src/memory/core/memory_manager.py:91-97 | groups come in order of first appearance: wherever a later group's type occurs, an earlier group's type has already occurred |
| Consolidation.GroupByCovers | src/memory/core/memory_manager.py:91-97 | no memory is left without a group: for every memory some group is keyed by its type |
| Retriever.TimeDecay | src/memory/core/memory_retriever.py:156-164 | decay is below 1, and non-negative for a past timestamp |
| Retriever.FreshRecordUndecayed | src/memory/core/memory_retriever.py:161-164 | a record under a day old has decay 0 |
| Retriever.TimeDecayMonotone | src/memory/core/memory_retriever.py:156-164 | older records decay at least as much |
| Retriever.FreshScore | src/memory/core/memory_retriever.py:136-141 | a fresh record scores its similarity times its stored strength |
| Retriever.Candidates | src/memory/core/memory_retriever.py:104-122 | exactly the owner's documents of an allowed type inside the inclusive window |
| Retriever.RetrieveMemories | src/memory/core/memory_retriever.py:96-150 | exactly min(top_k, candidates) of the candidates (len + top_k for a negative top_k) in non-increasing score, none dropped scoring above one kept, equal scores kept in candidate order, and a permutation of all candidates when `top_k` covers them |
| Retriever.Format | src/memory/core/memory_retriever.py:84-90 | an entry is tagged `stm` exactly when the document has `occurrence_count` |
| Retriever.GetUserHistory | src/memory/core/memory_retriever.py:65-94 | exactly min(limit, fetched) entries (fetched + limit for a negative limit), newest first, each the formatted form of a fetched document, none dropped newer than one kept, equal times in fetch order |
| Retriever.Entries | src/memory/core/memory_retriever.py:81-90 | one formatted entry per fetched document, short-term ones first, in fetch order |
| Retriever.ContextPartsLength | src/memory/core/memory_retriever.py:184-190 | every retrieved record contributes at least one line |
| Retriever.ContextWithoutKeyPoints | src/memory/core/memory_retriever.py:184-190 | without key points the lines are the contents in retrieval order |
| Retriever.GetMemoryContext | src/memory/core/memory_retriever.py:166-192 | the context of the records `retrieve_memories` returns for the query, "" when there are none |
| Retriever.ContextOfOne | src/memory/core/memory_retriever.py:183-192 | one record's context is its key points, one per line, or else its content |
| Retriever.ContextAppend | src/memory/core/memory_retriever.py:183-192 | the context of two batches of records is the first's context, a newline, then the second's |
| Retriever.ContextSplits | src/memory/core/memory_retriever.py:183-192 | when no line contains a newline, splitting the context on newlines gives the lines back |
| Text.JoinAppend | src/memory/core/memory_retriever.py:192 | `sep.join` of two non-empty lists is the two joins with one separator between |
| MemoryManager.AddMemory | src/memory/core/memory_manager.py:20-41 | fails exactly on non-numeric strength inputs; otherwise one new document with the encoder's fields and the metadata verbatim |
| MemoryManager.AddMemoryCounts | src/memory/core/memory_manager.py:20-41 | the new memory counts towards its owner's total and nobody else's |
| MemoryManager.UpdateMemory | src/memory/core/memory_manager.py:43-65 | rewrites the encoded fields, metadata and `updated_at` of that id only; an unknown id changes nothing |
| MemoryManager.ClearMemories | src/memory/core/memory_manager.py:144-146 | removes exactly the user's documents and keeps the rest unchanged |
| MemoryManager.ClearedStats | src/memory/core/memory_manager.py:144-173 | after clearing, the user's statistics are empty |
| MemoryManager.GetMemoryStats | src/memory/core/memory_manager.py:148-173 | the total, the type counts and latest are those of the user's documents; the counts are positive and add up to the total; latest is `None` exactly when the total is 0 |
| MemoryManager.GetMemoryContext | src/memory/core/memory_manager.py:67-84 | the context of what the retriever returns for the query's embedding |
| MemoryManager.SameMergeDecision | src/memory/core/memory_manager.py:118-123 | this merge test agrees with the multi-source similarity test above 0.8 |
| MemoryManager.MergedMetaNumeric | src/memory/core/memory_manager.py:126-129 | adding `merged_from` to the left metadata keeps it acceptable to the encoder |
| MemoryManager.MergePair | src/memory/core/memory_manager.py:123-140 | rewrites the left id, deletes the right id and leaves every other document |
| MemoryManager.ApplyMergesFrame | src/memory/core/memory_manager.py:112-142 | a document no merge names keeps its state |
| MemoryManager.ApplyMergesKeys | src/memory/core/memory_manager.py:112-142 | a pass without an exception removes exactly the right-hand documents |
| MemoryManager.ApplyMergesCount | src/memory/core/memory_manager.py:112-142 | each merge lowers the record count by exactly one |
| MemoryManager.ConsolidateGroup | src/memory/core/memory_manager.py:103-142 | a group of fewer than two is left alone; otherwise documents are only ever removed |
| MemoryManager.GroupOutcome | src/memory/core/memory_manager.py:103-142 | a successful group pass loses exactly one document per planned merge |
| MemoryManager.ConsolidateMemories | src/memory/core/memory_manager.py:86-101 | the pass only ever removes documents |
| MemoryManager.OtherOwnersUntouched | src/memory/core/memory_manager.py:86-101 | another owner's memories are never touched |
| MemoryManager.ConsolidationSucceeds | src/memory/core/memory_manager.py:86-142 | on metadata the manager accepted, consolidation never raises |
| MemoryManager.StaleLeftRecord | src/memory/core/memory_manager.py:112-140 | as written, three similar memories A, B, C end as one memory reading "A\nC" with `merged_from` [A, C] |
| MemoryManager.RefreshedKeepsAllText | src/memory/core/memory_manager.py:125 | with the refreshed left record, a group's text survives whole |
| MemoryManager.RefreshedThreeRecords | src/memory/core/memory_manager.py:112-140 | corrected, the three memories end as one memory reading "A\nB\nC" |
| MemoryAnalyzer.SimpleAnalysis | src/memory/core/memory_analyzer.py:55-71 | store exactly when some of the analyzer's importance keywords occurs; importance is min(1, 0.2 per keyword); key points and reason follow the flag |
| MemoryAnalyzer.ImportanceGrows | src/memory/core/memory_analyzer.py:58-64 | appending text never lowers the importance or the store decision |
| MemoryAnalyzer.AnalyzeConversation | src/memory/core/memory_analyzer.py:14-53 | a missing, empty or non-JSON reply gives the keyword analysis; otherwise the decoded fields with their defaults |
| Emotions.StatesWellFormed | src/config/emotion_config.py:84-138 | eight states with distinct names, each with keywords, `happy` first |
| Emotions.KeywordScore | src/emotion/core/emotion_analyzer.py:96-98 | the fraction of a state's keywords present: in [0,1], positive when one occurs, 1 when all occur |
| Emotions.ArgMax | src/emotion/core/emotion_analyzer.py:101 | `max` picks a greatest score, the first one on a tie |
| Emotions.ArgMaxAllEqual | src/emotion/core/emotion_analyzer.py:101 | with all scores equal, the first state is picked |
| Emotions.PositiveStates | src/emotion/core/emotion_analyzer.py:113 | a state's name is listed exactly when its score is positive, in the order of the states |
| EmotionAnalyzer.Band | src/emotion/core/emotion_analyzer.py:122-141 | +0.1 inside the band, −0.1 above it, nothing below it |
| EmotionAnalyzer.TimeBand | src/emotion/core/emotion_analyzer.py:144-148 | +0.1 for morning and afternoon, −0.1 for night and late night, 0 otherwise |
| EmotionAnalyzer.EqScore | src/emotion/core/emotion_analyzer.py:117-150 | the score is 0.5 plus the four band adjustments and lies in [0.1, 0.9] |
| EmotionAnalyzer.EqDefault | src/emotion/core/emotion_analyzer.py:117-150 | no behaviour data gives exactly 0.5 |
| EmotionAnalyzer.EqExtremes | src/emotion/core/emotion_analyzer.py:117-150 | excessive use at night gives 0.1 and moderate use in the morning gives 0.9 |
| EmotionAnalyzer.SimpleAnalysis | src/emotion/core/emotion_analyzer.py:90-115 | intensity in [0,1], keywords are the positively scored states in state order, EQ from the behaviour |
| EmotionAnalyzer.ChosenStateIsBest | src/emotion/core/emotion_analyzer.py:96-104 | the chosen state has the greatest score, every earlier state scores less, and intensity is min(1, 1.5 × score) |
| EmotionAnalyzer.NoKeywordIsHappy | src/emotion/core/emotion_analyzer.py:96-113 | no keyword at all reads as `happy` at intensity 0 with no keywords |
| EmotionAnalyzer.AnalyzeConversation | src/emotion/core/emotion_analyzer.py:16-57 | a missing, empty or non-JSON reply gives the keyword analysis; otherwise the decoded fields with their defaults |
| EmotionManager.TimeOfDay | src/emotion/core/emotion_manager.py:175-185 | 5–11 morning, 12–17 afternoon, 18–21 night, else late night, each an if-and-only-if |
| EmotionManager.AverageBounds | src/emotion/core/emotion_manager.py:65-72 | the average of values in [lo, hi] lies in [lo, hi] |
| EmotionManager.ConversationCycle | src/emotion/core/emotion_manager.py:187-201 | `unknown` exactly for no intervals; otherwise frequent, daily or occasional by the average, each an if-and-only-if |
| EmotionManager.CycleOfUniformIntervals | src/emotion/core/emotion_manager.py:187-201 | intervals all under an hour are frequent, and intervals all of a day or more are occasional |
| EmotionManager.RecentBehaviors | src/emotion/core/emotion_manager.py:48-53 | exactly the user's behaviours from the last day |
| EmotionManager.GetUserBehavior | src/emotion/core/emotion_manager.py:46-75 | the frequency is the recent count and the time of day is the hour's bucket; no recent behaviour gives zeros and `unknown` |
| EmotionManager.CycleMatchesAverage | src/emotion/core/emotion_manager.py:64-75 | the reported cycle is frequent, daily or occasional exactly when the reported average interval is under an hour, from an hour to under a day, or a day or more |
| EmotionManager.QuietDayEq | src/emotion/core/emotion_manager.py:46-75 | a quiet day leaves only the time of day to move the EQ score |
| EmotionManager.GetCurrentEmotion | src/emotion/core/emotion_manager.py:77-95 | the stored analysis, or neutral at 0.5 for an unknown user |
| EmotionManager.GetEmotionState | src/emotion/core/emotion_manager.py:209-214 | the current state; `neutral` for an unknown user |
| EmotionManager.GetEmotionIntensity | src/emotion/core/emotion_manager.py:216-221 | the current intensity; 0.5 for an unknown user |
| EmotionManager.UpdateEmotionState | src/emotion/core/emotion_manager.py:131-149 | an upsert: the user has a document afterwards and other users keep theirs |
| EmotionManager.UpsertReadBack | src/emotion/core/emotion_manager.py:131-149 | after an upsert the getters read back what was written for that user only |
| EmotionManager.LastBehavior | src/emotion/core/emotion_manager.py:153-157 | `None` exactly when the user has no behaviour; otherwise the user's latest one |
| EmotionManager.UpdateUserBehavior | src/emotion/core/emotion_manager.py:151-173 | appends one record for the user, interval since the latest behaviour or 0, duration 0 |
| EmotionManager.IntervalNonNegative | src/emotion/core/emotion_manager.py:159-163 | with no behaviour dated in the future, the interval is non-negative |
| EmotionManager.NewEmotion | src/emotion/core/emotion_manager.py:97-129 | intensity averages the decayed current and the new; extreme EQ keeps the current state or goes neutral; reason, keywords and EQ come from the new analysis |
| EmotionManager.NewIntensityBounded | src/emotion/core/emotion_manager.py:102-105 | inputs and decay in [0,1] give an intensity in [0,1] |
| EmotionManager.ExtremeEqIsConservative | src/emotion/core/emotion_manager.py:108-117 | an EQ above 0.7 or below 0.3 yields the current state or `neutral` |
| EmotionManager.GetEmotionExpression | src/emotion/core/emotion_manager.py:203-207 | the state's first configured line, or the calm line for an unknown state |
| EmotionManager.UnknownReadsNeutral | src/config/emotion_config.py:5-46 | an unknown state is expressed like `neutral`, and every state has a line |
| EmotionManager.UpdateEmotion | src/emotion/core/emotion_manager.py:21-44 | the blended emotion is stored for the user and read back, and exactly one behaviour is appended |
| EmotionReasoner.Get | src/emotion/core/emotion_reasoner.py:168-171 | an absent trait weighs 0; otherwise the first entry's weight |
| EmotionReasoner.Last5 | src/emotion/core/emotion_reasoner.py:121 | the last five entries, or all of them when fewer |
| EmotionReasoner.ScoreSum | src/emotion/core/emotion_reasoner.py:143-146 | the summed keyword fractions lie in [0, n] and are positive exactly when some keyword occurs |
| EmotionReasoner.AnalyzeConversationEmotion | src/emotion/core/emotion_reasoner.py:139-153 | a state's score is positive exactly when one of its keywords occurs |
| EmotionReasoner.ScoresSumToOne | src/emotion/core/emotion_reasoner.py:148-153 | when anything matched, the scores lie in [0,1] and add up to 1 |
| EmotionReasoner.NoMatchScoresZero | src/emotion/core/emotion_reasoner.py:148-153 | when nothing matched, every score is 0 |
| EmotionReasoner.ImpactByTrait | src/emotion/core/emotion_reasoner.py:161-172 | the impact is 0.1·humor − 0.1·seriousness + 0.05·empathy + 0.05·creativity; other traits count 0 |
| EmotionReasoner.AdjustByPersonality | src/emotion/core/emotion_reasoner.py:155-185 | intensity is current plus impact clamped to [0,1]; keywords and EQ are carried over |
| EmotionReasoner.AdjustedStateIsBest | src/emotion/core/emotion_reasoner.py:177-179 | the adjusted state has the greatest score, the first on a tie |
| EmotionReasoner.ChangeTerm | src/emotion/core/emotion_reasoner.py:196-201 | 0 without a change, +0.05 for a change to happy or neutral, −0.05 for any other change |
| EmotionReasoner.EqTraitsByTrait | src/emotion/core/emotion_reasoner.py:207-212 | the personality term is 0.1·empathy − 0.05·seriousness |
| EmotionReasoner.EqAdjustment | src/emotion/core/emotion_reasoner.py:187-218 | the sum of the three terms clamped to [−0.1, 0.1] |
| EmotionReasoner.EqAdjustmentAtRest | src/emotion/core/emotion_reasoner.py:187-218 | no change and a neutral personality give 0 |
| EmotionReasoner.HappyMoveRaisesEq | src/emotion/core/emotion_reasoner.py:196-204 | a move to happy or neutral that keeps intensity raises the quotient |
| EmotionReasoner.SimpleReasoning | src/emotion/core/emotion_reasoner.py:115-137 | the last five conversations scored, then adjusted by personality, with the EQ change of that adjustment |
| EmotionReasoner.OnlyLastFiveMatter | src/emotion/core/emotion_reasoner.py:121 | history older than the last five makes no difference |
| EmotionReasoner.ReasonEmotion | src/emotion/core/emotion_reasoner.py:15-77 | a reply with a choice raises `NameError` (the module never imports `json`); every other reply takes the rule-based path |
| Chunker.SplitAsWritten | src/plugin/knowledges/knowledge_manager.py:100-113 | an empty text gives no pieces |
| Chunker.AsWrittenNeverFinishes | src/plugin/knowledges/knowledge_manager.py:106-111 | as written, a non-empty text with a positive overlap is never split, however many pieces are allowed |
| Chunker.DefaultConfigDiverges | src/plugin/knowledges/knowledge_manager.py:32-40 | with the default 1000 and 200, the text "a" is never split |
| Chunker.SplitWithoutOverlap | src/plugin/knowledges/knowledge_manager.py:106-111 | with overlap 0 the loop as written stops with exactly the intended pieces |
| Chunker.SplitContent | src/plugin/knowledges/knowledge_manager.py:100-113 | corrected: no pieces exactly for an empty text; the first piece is the text's first `chunk_size` characters; every piece has 1 to `chunk_size` characters |
| Chunker.SplitReassembles | src/plugin/knowledges/knowledge_manager.py:106-111 | the first piece followed by every later piece without its overlap is the text |
| Chunker.SplitOverlaps | src/plugin/knowledges/knowledge_manager.py:111 | consecutive pieces share `overlap` characters |
| KnowledgeManager.ProcessKnowledge | src/plugin/knowledges/knowledge_manager.py:115-151 | the decoded reply, or for a non-JSON reply the piece itself with category `general`, no key points and confidence 0.5 |
| KnowledgeManager.FallbackKeepsPiece | src/plugin/knowledges/knowledge_manager.py:142-151 | the fallback carries every key and keeps the piece verbatim |
| KnowledgeManager.KnowledgeMeta | src/plugin/knowledges/knowledge_manager.py:79-86 | the stored metadata holds exactly the file path, category, key points and confidence |
| KnowledgeManager.StoreKnowledge | src/plugin/knowledges/knowledge_manager.py:153-172 | appends one document, kept even when the memory system call then raises `ValueError` for a missing `knowledge` source |
| KnowledgeManager.StoreRoutesToKnowledge | src/plugin/knowledges/knowledge_manager.py:167-172 | a stored piece reaches the `knowledge` source and no other |
| KnowledgeManager.LearnPiece | src/plugin/knowledges/knowledge_manager.py:73-92 | a piece missing a key raises before anything is stored; otherwise one document with the processed content |
| KnowledgeManager.LearnFromFiles | src/plugin/knowledges/knowledge_manager.py:42-98 | a missing directory raises; the counters count the selected, readable and split pieces, processed ≤ total, successful ≤ chunks, one error per unprocessed file or piece |
| KnowledgeManager.NothingSelected | src/plugin/knowledges/knowledge_manager.py:57-60 | with no matching file every counter is 0 |
| KnowledgeManager.KnowledgeHits | src/plugin/knowledges/knowledge_manager.py:180-185 | exactly min(limit, fetched) hits (fetched + limit for a negative limit) of the `knowledge` source, the strongest of what it returned, strongest first, equal strengths in fetch order, each a current record of the user |
| KnowledgeManager.GetKnowledge | src/plugin/knowledges/knowledge_manager.py:174-195 | one result per kept hit, the converted strongest hits of the `knowledge` source, strongest first |
| KnowledgeManager.KnowledgeComesFromKnowledgeSource | src/plugin/knowledges/knowledge_manager.py:180-185 | every result is one of the user's records in the `knowledge` source |
| KnowledgeManager.Newest | src/plugin/knowledges/knowledge_manager.py:213-221 | `None` exactly for no documents, otherwise the newest creation time |
| KnowledgeManager.GetKnowledgeStats | src/plugin/knowledges/knowledge_manager.py:197-222 | the user's document count, each category present with its document count, and the creation time of the user's newest document |
| PromptManager.NewManager | src/dialogue/core/prompt_manager.py:20-62 | only the `deepseek` templates, selected, and one registered model with temperature 0.7 and 1000 tokens |
| PromptManager.GetSupportedModels | src/dialogue/core/prompt_manager.py:143-145 | exactly the registered names, without repeats |
| PromptManager.SupportedModelsOrder | src/dialogue/core/prompt_manager.py:143-157 | names are listed in registration order: adding a new model puts it last, re-adding one keeps its place |
| PromptManager.GetPrompt | src/dialogue/core/prompt_manager.py:103-134 | raises `ValueError` exactly for an unregistered model; otherwise the filled template with the entry's settings |
| PromptManager.InitialSupportsOnlyDeepSeek | src/dialogue/core/prompt_manager.py:41-62 | a fresh manager answers for its one model only |
| PromptManager.AddPromptTemplate | src/dialogue/core/prompt_manager.py:147-156 | inserts or overwrites the entry under the config's name; other entries are unchanged |
| PromptManager.AddThenGet | src/dialogue/core/prompt_manager.py:103-156 | after adding, `get_prompt` returns the added settings, and other names answer as before |
| PromptManager.Apply | src/dialogue/core/prompt_manager.py:169-180 | each field passed replaces the old one; the others stay |
| PromptManager.UpdatePromptTemplate | src/dialogue/core/prompt_manager.py:158-180 | an unknown name raises and changes nothing; otherwise only the passed fields of that entry change |
| PromptManager.UpdateNothing | src/dialogue/core/prompt_manager.py:169-180 | passing no field changes nothing |
| PromptManager.UpdateIdempotent | src/dialogue/core/prompt_manager.py:158-180 | the same update twice equals it once |
| PromptManager.UpdatesCompose | src/dialogue/core/prompt_manager.py:158-180 | a later update wins field by field |
| PromptManager.SetModel | src/dialogue/core/prompt_manager.py:64-72 | a `qianwen` prefix (without `deepseek`) selects the `qianwen` templates, anything else `deepseek`; a missing set raises `KeyError` |
| PromptManager.SetModelOnInitial | src/dialogue/core/prompt_manager.py:22-34 | on a fresh manager, every `qianwen` name raises and every other keeps the `deepseek` templates |

## Left out

- **Language-model calls and the network.** The chat request, the prompt-building helpers and streaming are not modelled. The reply is a parameter with three shapes: missing, an empty `choices` list, or a first choice whose content does or does not decode as JSON. Replies of any other shape are listed below.
- **Embedding, cosine and `exp`.** The sentence-embedding model, the floating-point cosine ratio and `numpy.exp` are foreign functions. The model assumes `exp(0) = 1`, that `exp` is monotone and that it is positive, and nothing more.
- **Floating point.** All scores are exact reals. Rounding, NaN propagation and `inf` are not modelled. The one exception is the NaN-never-merges behaviour of the memory manager's unguarded cosine, which is modelled explicitly.
- **MongoDB.** The connection, indexes and query language are left out. Sort ties are broken by insertion order, where MongoDB leaves them unspecified.
- MemoryAnalyzer.AnalyzeConversation: a reply whose content decodes to JSON that is not an object is not modelled. Such content raises `AttributeError` on `result.get`. Neither is a choice without `message` or `content`, which raises `KeyError`. Neither exception is caught. Decoded fields of the wrong type are not modelled either.
- EmotionAnalyzer.AnalyzeConversation: the same two reply shapes are not modelled. They raise `AttributeError` and `KeyError` uncaught.
- KnowledgeManager.ProcessKnowledge: the reply is the chat text, so there is no `message` or `content` lookup to fail. Decoded JSON that is not an object has no modelled value of its own. It stands for a `Processed` value with every key absent, because indexing it in `learn_from_files` raises `TypeError` or `KeyError`, and that loop catches any exception as one error. Decoded fields of the wrong type are not modelled.
- **Clock and file system.** `datetime.now()` is the parameter `now`. `os.walk` and file reads become a list of file entries.
- **MemorySource interface.** The abstract base class is a closed datatype over the two sources. Third-party sources are not modelled.
- **Analyzer collections in `get_user_history`.** The analyzer's short- and long-term collections do not exist in the source. `get_user_history` takes the two fetched lists as parameters, and `_get_stm_context` and `_get_ltm_context` are left out.
- **Consolidation lookups.** The multi-source consolidation reads the record id and source name from `metadata['id']` and `metadata['source']`, which no source ever writes. The model carries id and source as fields of a hit.
- EmotionManager.NewEmotion: the decay rate is a parameter. The source reads `self.update_params.decay_rate`, an attribute lookup on a dictionary, which raises `AttributeError`.
- EmotionManager.UpdateEmotion: models the intended update. As written, `_calculate_new_emotion` reads `self.update_params.decay_rate` (emotion_manager.py:102), but `update_params` is the dictionary `EMOTION_UPDATE_PARAMS` (emotion_config.py:219-220). So every call raises `AttributeError` before anything is stored or appended. That dictionary has no `decay_rate` key either: its decay setting is `['decay']['base_rate']` (emotion_config.py:67-72). The model takes the decay rate as a parameter instead. The natural value is the class attribute `EmotionConfig.decay_rate`, 0.1 (emotion_config.py:206).
- EmotionReasoner.ReasonEmotion: the language-model branch is modelled only as far as its `NameError`. `PERSONALITY_TRAITS` is not defined in `src/config/emotion_config.py`, so importing `emotion_reasoner.py` as written raises `ImportError` at its line 4. The model assumes the import succeeds and takes the personality as a parameter.
- **Knowledge manager imports.** The module imports `MultiSourceManager` and a `..llm.core` module that do not exist under those names. The model assumes the intended `MultiSourceMemoryManager` and a chat function given as a reply parameter.
- KnowledgeManager.LearnFromFiles: requires 0 ≤ overlap < chunk size and splits with the corrected chunker, because the chunker as written never finishes (see Findings).
- PromptManager.AddPromptTemplate: takes a config that carries a model name, temperature and token limit. The source's `PromptConfig` has none of these fields, so the call as written raises `AttributeError`.
- **Prompt filling.** `str.format`, the `format_*` helpers and `_format_personality_traits` are left out. Filling is the parameter `fill` of `GetPrompt`.
- **Orchestration code.** `main.py`, `run.py`, the dialogue processor and dialogue system, and the example scripts are not part of this model. The same goes for the configuration classes beyond the constant tables they define.
- **Time window.** The time window is inclusive at both ends, as the code's `$gte`/`$lte` filter is. A half-open window would be wrong here.
- **Updating an unknown id.** This is a silent no-op, as `update_one` is. There is no not-found error.

## Findings

| source | as written | input that shows it | evidently intended | confidence | as-written member | corrected member |
|---|---|---|---|---|---|---|
| src/memory/core/memory_manager.py:112-140 | after a merge, the walk compares and merges from the in-memory left record, which still holds its original text and embedding; the stored record was already rewritten | three memories A, B, C of one type, in time order, with A similar to B and to C: the survivor reads "A\nC", B's text is lost, and `merged_from` names A and C | refresh the left record after each merge, so the survivor reads "A\nB\nC" | not executed | MemoryManager.StaleLeftRecord | MemoryManager.RefreshedThreeRecords |
| src/memory/core/multi_source_manager.py:152-187 | the same stale left snapshot in the multi-source walk | A, B, C with A similar to B and C: merges (A, B) then (A, C) | merge the refreshed left item with the next one | not executed | Consolidation.StaleLeftPlan | Consolidation.RefreshedPlan |
| src/plugin/knowledges/knowledge_manager.py:106-111 | `start = end - overlap` runs after the piece that reaches the end of the text as well, so with a positive overlap `start` stays below `len(content)` forever | `_split_content("a")` with the default `chunk_size` 1000 and `overlap` 200 loops forever | stop after the piece that reaches the end of the text | not executed | Chunker.AsWrittenNeverFinishes | Chunker.SplitContent |
