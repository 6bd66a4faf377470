# A verified model of the travel backend's query and scheduling helpers

The backend is a NestJS service over TypeORM. Its real logic lives in a few helpers, and this project models them in Dafny and proves what they promise:

- **The generic search engine.** A filter tree is walked onto a query builder. Each leaf field is checked against an allow-list, resolved as a relation, JSON path or plain column, and each of its operators becomes one parameterized predicate. Sorting and offset paging follow. The result carries paging metadata.
- **The compact filter syntax.** `[and_|or_]key-operator-value,...` is read into a filter tree.
- **The older query helpers.** `parseField` splits `relation.path` at the first dot, and `escapeLikeString` escapes LIKE wildcards (`QueryBuilderUtil`).
- **The case converter.** Request bodies and queries are renamed from snake_case to camelCase, and responses back, recursively through arrays and objects (`CaseConverter`).
- **The weather API client.** It picks the base date and time of a short-term request and the release of a mid-term request. It condenses a day's forecast items into a current temperature, a high, a low and one sky label, either from the item at the next hour or from the most frequent codes of the day (`WeatherApi`).
- **The weather agency client.** It maps a land forecast's announcement hour and entry number to a day and a half day, and gathers the entries into one record per day. It reads the mid-term land and temperature answers day by day, folds today's high and low, and picks the mid-term release (`KmaWeather`).
- **The short-term weather service.** It picks the base time and groups forecast items by date and hour into records, in order of first appearance (`WeatherService`).
- **The silence-log readers.** Two readers of ffmpeg's `silencedetect` output pair each `silence_end` line with the `silence_start` line before it (`MediaUtil`).
- **Long recordings.** They are cut into chunks of at least ten minutes that end at the end of a silence, and the chunk transcripts are merged back with shifted segment times (`Whisper`).

The forecast schedules that several clients share are the module `ForecastSchedule`: short-term issues at 02:00, 05:00, …, 23:00 and mid-term issues at 06:00 and 18:00. Times are minutes counted from today's midnight, and dates are day offsets from today.

The query builder is modelled as a class whose only state is the log of clauses it has been asked to add. These are `andWhere`/`orWhere` with their SQL text and bindings, bracket groups, joins, selections, `orderBy`, `skip`/`take` and the final `getManyAndCount`. No SQL is evaluated.

A bracket group runs its callback inside the `andWhere`/`orWhere` call that receives it. It therefore holds exactly the clauses that callback added to its fresh builder, and a throw inside it means the group itself is never added. Every walk function is paired with an `Emission`: the clauses added, in order, and the error thrown, if any. A throw ends the walk, but clauses added before it stay on the builder, as they do in the running program.

JavaScript values that reach the walk are modelled by `JsValues.JsValue`. Three behaviours of the JavaScript built-ins are kept where the code depends on them:

- `Object.entries` and `in` throw a `TypeError` on `null`, `undefined` and other non-objects.
- The empty string is falsy.
- Integer-like keys are enumerated first.

`JSON.stringify` is a parameter of the model.

## Model

| member | source | states |
|---|---|---|
| `FilterConstants.FromName` | src/common/utils/filter/constants.ts:1-17 | a name is resolved exactly when it is one of the fifteen allowed operators, and resolving it gives back that name |
| `FilterConstants.AllowedOperatorsDistinct` | src/common/utils/filter/constants.ts:1-17 | the allowed list has fifteen entries, all distinct |
| `FilterConstants.OperatorMapTotal` | src/common/utils/filter/constants.ts:21-37 | every allowed operator has an SQL fragment |
| `FilterConstants.LikeFragments` | src/common/utils/filter/constants.ts:30-33 | `contains`, `starts_with` and `ends_with` map to `LIKE`, and `not_contains` maps to `NOT LIKE` |
| `FilterConstants.NegatedPairs` | src/common/utils/filter/constants.ts:22-36 | eq/neq, in/nin and is/nis map to `=`/`!=`, `IN`/`NOT IN` and `IS`/`IS NOT` |
| `FilterUtils.EscapeLikeString` | src/common/utils/filter/utils.ts:24-26 | the output is as long as the input plus the number of `%`, `_` and `\` in it |
| `FilterUtils.EscapedReadsLiterally` | src/common/utils/filter/utils.ts:24-26 | read as a LIKE pattern, the escaped text matches exactly its own characters, whatever follows it |
| `FilterUtils.EscapedLikePattern` | src/common/utils/filter/utils.ts:10-26 | each LIKE pattern built from escaped text is the value's literal characters with wildcards only where the operator puts them |
| `FilterUtils.ParseField` | src/common/utils/filter/utils.ts:28-52 | every error is `Invalid sort field: path`, and a relation it returns is one of the joined fields |
| `FilterUtils.ParseFieldBySegments` | src/common/utils/filter/utils.ts:36-51 | one segment gives the field alone; two give relation+field when the first is joined, else field+JSON path; three need a joined first segment and give all three; four or more throw |
| `FilterUtils.ParseFieldSound` | src/common/utils/filter/utils.ts:28-52 | a successful parse, written back with dots, is the input path, and it is well formed for the joined fields |
| `FilterUtils.ParseFieldComplete` | src/common/utils/filter/utils.ts:28-52 | every well-formed parse result is what parsing its dotted form returns |
| `FilterOperators.OperatorErrors` | src/common/utils/filter/operators.ts:5-142 | `in`/`nin` fail exactly on non-arrays, LIKE operators exactly on non-strings, `is`/`nis` exactly on non-strings (the `toUpperCase` TypeError); every other operator never fails |
| `FilterOperators.OperatorPredicateShape` | src/common/utils/filter/operators.ts:64-142 | a successful predicate starts with the field expression; each binding is named by the parameter and referenced in the SQL; `is`/`nis` bind nothing and every other operator binds exactly one value |
| `FilterOperators.LikeBindsLiteralPattern` | src/common/utils/filter/operators.ts:95-113 | a LIKE predicate binds the operator's pattern over the escaped value |
| `FilterOperators.IsOperatorInlinesValue` | src/common/utils/filter/operators.ts:126-142 | `is`/`nis` on TRUE/FALSE in any case compare with `=`/`!=` against the upper-cased literal, and otherwise write `IS`/`IS NOT` and the raw text, unbound |
| `FilterOperators.ApplySimpleOperator` | src/common/utils/filter/operators.ts:64-75 | adds exactly the predicate `field OP :param` bound to the raw value |
| `FilterOperators.ApplyListOperator` | src/common/utils/filter/operators.ts:77-93 | a non-array throws and adds nothing; an array adds `field IN|NOT IN (:...param)` bound to it |
| `FilterOperators.ApplyLikeOperator` | src/common/utils/filter/operators.ts:95-113 | adds `field LIKE|NOT LIKE :param` bound to the pattern over the escaped string |
| `FilterOperators.ApplyJsonContainsOperator` | src/common/utils/filter/operators.ts:115-124 | adds `JSON_CONTAINS(field, :param)` bound to the value's JSON text |
| `FilterOperators.ApplyIsOperator` | src/common/utils/filter/operators.ts:126-142 | a non-string throws and adds nothing; otherwise adds the one inlined comparison |
| `FilterOperators.ApplyOperator` | src/common/utils/filter/operators.ts:5-62 | dispatches each operator to its emitter; a call that does not throw adds exactly one `andWhere` |
| `FilterWalk.ApplyFilter` | src/common/utils/filter.util.ts:15-39 | the builder ends with exactly the clauses of the filter's emission, and the error returned is the emission's |
| `FilterWalk.ApplyLogicalOperator` | src/common/utils/filter.util.ts:41-75 | the same for a logical node, with each child walked on its own fresh builder |
| `FilterWalk.ApplyCondition` | src/common/utils/filter.util.ts:77-130 | the same for a leaf: its fields in enumeration order, stopping at the first throw |
| `FilterWalk.ApplyField` | src/common/utils/filter.util.ts:84-97 | the same for one field: allow-list first, then its operators in order |
| `FilterWalk.ApplyFieldOperators` | src/common/utils/filter.util.ts:94-128 | the operators of one field in enumeration order: the clauses logged are those of the operators before the first failing one, and the error returned is that operator's, or none when all pass |
| `FilterWalk.ApplyFieldOperator` | src/common/utils/filter.util.ts:94-127 | the same for one operator: operator check, parameter name, field resolution, then the emitter |
| `FilterWalk.NotJoinsLikeOr` | src/common/utils/filter.util.ts:48-74 | only the first entry of a logical node counts, and `not` joins its children exactly as `or` does |
| `FilterWalk.LogicalNeedsArray` | src/common/utils/filter.util.ts:53-55 | a logical node whose first value is no array throws `Invalid logical operator or conditions` |
| `FilterWalk.LogicalGroupShape` | src/common/utils/filter.util.ts:57-74 | without a throw, a logical node adds one `andWhere` bracket holding one bracket per child, in order, joined by `andWhere` under `and` and `orWhere` otherwise; an empty list is accepted |
| `FilterWalk.LogicalGroupFirstThrow` | src/common/utils/filter.util.ts:57-74 | the first child that throws decides the node's error, and the node then adds nothing |
| `FilterWalk.LeafAddsOnlyPredicates` | src/common/utils/filter.util.ts:77-130 | every clause a leaf adds, even one that then throws, is a plain `andWhere` predicate |
| `FilterWalk.FilterAddsOnlyAndWhere` | src/common/utils/filter.util.ts:15-75 | at the top of any filter tree, only `andWhere` clauses are added |
| `FilterWalk.FieldOnePredicatePerOperator` | src/common/utils/filter.util.ts:94-128 | a field that does not throw adds one `andWhere` per operator, in the operators' order |
| `FilterWalk.FieldCheckedBeforeOperators` | src/common/utils/filter.util.ts:85-93 | the first field outside both allow-lists decides the error, none of its operators is applied, and the earlier fields' predicates stay |
| `FilterWalk.ParamNameForm` | src/common/utils/filter.util.ts:99 | the parameter name replaces only the first `.` by `_` and appends the operator, so `a.b` and `a_b` share a name |
| `FilterWalk.FieldExpressionColumn` | src/common/utils/filter.util.ts:103-127 | when neither the relation nor the JSON path is the empty string, the field expression is `getFieldExpression` of `relation.field` for a joined relation and of `entity.field` otherwise; when neither part is truthy it is `entity.` followed by the raw path |
| `FilterWalk.TrailingDotKeepsRawPath` | src/common/utils/filter.util.ts:101-119 | a path `name.` with `name` unjoined parses to `name` with the empty JSON path, and the leaf filters on `entity.name.`, trailing dot included |
| `FilterWalk.EmptyNodes` | src/common/utils/filter.util.ts:53-84 | the empty leaf adds nothing; a logical key over an empty list adds one empty bracket |
| `Sorting.ApplySort` | src/common/utils/sort.util.ts:6-51 | adds exactly the sort step's clauses, or throws having added nothing |
| `Sorting.SortKeyBeforeFirstDot` | src/common/utils/sort.util.ts:53-60 | the key checked is the text before the first `.`, or the whole path when it has none |
| `Sorting.SortErrors` | src/common/utils/sort.util.ts:13-21 | the sort step throws exactly when a sort path is given that is not allowed or does not resolve, always with `Invalid sort field: path` |
| `Sorting.SortOneOrderBy` | src/common/utils/sort.util.ts:13-50 | without a sort path nothing is added; with one, exactly one `orderBy` comes last, carrying the requested order, after at most a join and a selection |
| `Sorting.SortOrderExpression` | src/common/utils/sort.util.ts:22-79 | a JSON path is selected under an alias and ordered by that alias; a relation is joined as `entity.relation` aliased `entity_relation`, yet ordered by the bare `relation.field`; a plain column by `entity.field` |
| `Pagination.ApplyPagination` | src/common/utils/pagination.util.ts:3-9 | adds `skip((page - 1) * limit)` then `take(limit)` |
| `Pagination.OffsetOfValidPage` | src/common/dto/pagination.dto.ts:10-18 | a valid page skips no negative number of rows, and page 1 skips none |
| `Pagination.PagesContiguous` | src/common/utils/pagination.util.ts:8 | each page starts where the one before it ends |
| `Pagination.PagesDisjoint` | src/common/utils/pagination.util.ts:8 | the row windows of two distinct pages do not overlap |
| `SearchService.JoinTables` | src/common/search-filter.service.ts:23-37 | the join loop adds exactly the joins of the join walk over all hops of all joined paths |
| `SearchService.HopsChain` | src/common/search-filter.service.ts:26-36 | each hop joins `parent.segment` as `parent_segment`, starting from the entity name |
| `SearchService.JoinsOncePerAlias` | src/common/search-filter.service.ts:23-36 | no alias is joined twice, every hop's alias is joined, and every join is one of the hops |
| `SearchService.TotalPagesIsCeiling` | src/common/search-filter.service.ts:57 | the page count is the least number of pages of `limit` rows holding `total` rows; it is 0 exactly for 0 rows |
| `SearchService.SearchAndPaginateResults` | src/common/search-filter.service.ts:14-62 | joins, filter, sort, paging and the query are added in that order, the first throw ends the search, and the metadata echoes page, limit, sort path and order |
| `SearchService.SearchQueryRunsLast` | src/common/search-filter.service.ts:25-49 | the query is added exactly when no step threw, and then last; the joins always come first |
| `FilterGrammar.NumberOfNatural` | src/common/dto/search-filter-v2.dto.ts:21-24 | the decimal text of a whole number is read as that number |
| `FilterGrammar.NumberOfNegated` | src/common/dto/search-filter-v2.dto.ts:21-24 | a leading minus sign negates the literal after it, and before text that is no number it still gives no number |
| `FilterGrammar.NumberOfFraction` | src/common/dto/search-filter-v2.dto.ts:21-24 | `a.b` is read as a plus the fraction 0.b, which lies in [a, a + 1) |
| `FilterGrammar.NumberOfBlank` | src/common/dto/search-filter-v2.dto.ts:21-24 | the empty and the blank string are the number 0 |
| `FilterGrammar.WordIsNaN` | src/common/dto/search-filter-v2.dto.ts:21-24 | a trimmed text without a point or a leading sign that holds any character other than a digit is not a number, so it stays a string |
| `FilterGrammar.LoneSignIsNaN` | src/common/dto/search-filter-v2.dto.ts:21-24 | a lone `-` is not a number |
| `FilterGrammar.LonePointIsNaN` | src/common/dto/search-filter-v2.dto.ts:21-24 | a lone `.` is not a number |
| `FilterGrammar.ParseConditions` | src/common/dto/search-filter-v2.dto.ts:33 | the pieces are parsed one by one, keeping their number and order |
| `FilterGrammar.ConditionIsLeaf` | src/common/dto/search-filter-v2.dto.ts:13-27 | a parsed piece maps exactly one field, the text before the first `-`, to exactly one operator |
| `FilterGrammar.ConditionParts` | src/common/dto/search-filter-v2.dto.ts:13-27 | `key-op-value` maps key to op with the value coerced once, or split on `|` and coerced element by element for in/nin; anything after a third `-` is dropped |
| `FilterGrammar.TransformShape` | src/common/dto/search-filter-v2.dto.ts:29-36 | empty input gives `{}`; otherwise one node, `or` exactly when the input starts with `or_`, holding one leaf per comma piece after the one leading `or_`/`and_`, in order |
| `FilterGrammar.ParseConditionsErrors` | src/common/dto/search-filter-v2.dto.ts:20-21 | the parse fails exactly when some piece uses in/nin without a value, with the TypeError of `value.split` |
| `QueryBuilderUtil.ParseColumn` | src/common/utils/query-builder.util.ts:1-10 | the JSON path is `null` exactly when the field has no dot |
| `QueryBuilderUtil.ParseOneSegment` | src/common/utils/query-builder.util.ts:5-8 | a field without a dot becomes the column `entity.field`, with no JSON path |
| `QueryBuilderUtil.ParseAtFirstDot` | src/common/utils/query-builder.util.ts:5-9 | `first.rest` with no dot in `first` becomes the column `entity.first` and the JSON path `rest`, later dots included |
| `QueryBuilderUtil.ParseReconstructs` | src/common/utils/query-builder.util.ts:5-9 | every dotted field is the column's own name, a dot and the JSON path, so nothing of the field is lost |
| `QueryBuilderUtil.EscapeLikeString` | src/common/utils/query-builder.util.ts:12-14 | escapes exactly as the filter utilities' `escapeLikeString` does, so an escaped value reads as its own literal characters in a LIKE pattern |
| `CaseConverter.SnakeToCamelKey` | src/common/interceptors/case-converter.interceptor.ts:35-37 | no `_` followed by a lowercase letter is left; a non-empty key stays non-empty and does not gain a lowercase first letter |
| `CaseConverter.CamelToSnakeKey` | src/common/interceptors/case-converter.interceptor.ts:54-57 | no uppercase letter is left |
| `CaseConverter.CamelKeyRoundTrip` | src/common/interceptors/case-converter.interceptor.ts:35-57 | a key without `_` comes back unchanged from snake_case |
| `CaseConverter.SnakeKeyRoundTrip` | src/common/interceptors/case-converter.interceptor.ts:35-57 | a key without uppercase letters comes back unchanged from camelCase |
| `CaseConverter.SnakeKeyFixed` | src/common/interceptors/case-converter.interceptor.ts:54-57 | a key without uppercase letters is not renamed |
| `CaseConverter.CamelKeyFixed` | src/common/interceptors/case-converter.interceptor.ts:35-37 | a key with no `_` before a lowercase letter is not renamed |
| `CaseConverter.KeysIdempotent` | src/common/interceptors/case-converter.interceptor.ts:35-57 | renaming a second time changes nothing, in either direction |
| `CaseConverter.AssignAllUnique` | src/common/interceptors/case-converter.interceptor.ts:34-40 | the object the reduce assembles has no key twice |
| `CaseConverter.AssignAllKeys` | src/common/interceptors/case-converter.interceptor.ts:34-40 | the assembled object has exactly the keys assigned to it |
| `CaseConverter.AssignAllLastWins` | src/common/interceptors/case-converter.interceptor.ts:34-40 | each key holds the value assigned to it last |
| `CaseConverter.AssignAllDistinct` | src/common/interceptors/case-converter.interceptor.ts:34-40 | properties whose keys are already distinct are kept as they are, in their order |
| `CaseConverter.SnakeToCamel` | src/common/interceptors/case-converter.interceptor.ts:26-43 | arrays stay arrays of the same length, objects stay objects with distinct keys, and every other value, a Date included, is returned as it is |
| `CaseConverter.CamelToSnake` | src/common/interceptors/case-converter.interceptor.ts:45-63 | arrays stay arrays of the same length, objects stay objects with distinct keys, a Date becomes its ISO text, and every other value is returned as it is |
| `CaseConverter.ArraysElementwise` | src/common/interceptors/case-converter.interceptor.ts:30-50 | element `i` of a converted array is element `i` converted, in both directions |
| `CaseConverter.SnakeObjectLaterKeyWins` | src/common/interceptors/case-converter.interceptor.ts:33-40 | a camelCase key holds the converted value of the last source key renamed to it |
| `CaseConverter.CamelObjectLaterKeyWins` | src/common/interceptors/case-converter.interceptor.ts:52-60 | a snake_case key holds the converted value of the last source key renamed to it |
| `CaseConverter.ObjectKeys` | src/common/interceptors/case-converter.interceptor.ts:33-60 | a converted object's keys are exactly the renamed keys of the source object |
| `CaseConverter.ValueRoundTrip` | src/common/interceptors/case-converter.interceptor.ts:26-63 | a response value with camelCase keys (no `_`, distinct, no Dates) converted to snake_case and read back as a request is the value itself |
| `CaseConverter.RenamedDistinct` | src/common/interceptors/case-converter.interceptor.ts:52-60 | distinct keys without `_` stay distinct in snake_case, so no property of a response is lost |
| `ForecastSchedule.SlotText` | src/weather-api-client/weather-api.service.ts:106-114 | the request text of an hour is four characters, `HH00` |
| `ForecastSchedule.SlotHours` | src/weather-api-client/weather-api.service.ts:106-114 | the short-term issue hours are exactly 02, 05, …, 23 |
| `WeatherApi.NearestPastBaseHour` | src/weather-api-client/weather-api.service.ts:101-115 | the hour picked is a short-term issue hour |
| `WeatherApi.NearestPastBaseTime` | src/weather-api-client/weather-api.service.ts:101-115 | the base time is four characters, `HH00` |
| `WeatherApi.LatestPublishedForecast` | src/weather-api-client/weather-api.service.ts:87-115 | base date and base time name a forecast already ten minutes old, and no later one is |
| `WeatherApi.BaseDateRollsOverAt0210` | src/weather-api-client/weather-api.service.ts:87-98 | the base date is yesterday exactly until 02:10 has passed, and then the base time is `2300` |
| `WeatherApi.LeadingDigits` | src/weather-api-client/weather-api.service.ts:172 | the longest prefix of decimal digits, the digits `parseInt` reads |
| `WeatherApi.AddOneHourOfSlot` | src/weather-api-client/weather-api.service.ts:171-174 | `HH00` becomes the next hour, zero-padded, with no wrap at midnight: `2300` becomes `2400` |
| `WeatherApi.PaddedValue` | src/weather-api-client/weather-api.service.ts:172-173 | the two padded digits of an hour read back as that hour |
| `WeatherApi.MidTermLatestRelease` | src/weather-api-client/weather-api.service.ts:434-446 | the mid-term base time is a 06:00 or 18:00 release not after now, and no later release is |
| `WeatherApi.SkyStatus` | src/weather-api-client/weather-api.service.ts:176-192 | a precipitation label exactly when `PTY` is 1 to 4; the unknown label exactly when neither `PTY` nor `SKY` has a label |
| `WeatherApi.PrecipitationOverridesSky` | src/weather-api-client/weather-api.service.ts:177-180 | with precipitation the sky code does not change the label |
| `WeatherApi.SkyDecidesWithoutPrecipitation` | src/weather-api-client/weather-api.service.ts:182-191 | without precipitation the `PTY` code does not change the label |
| `WeatherApi.Temperatures` | src/weather-api-client/weather-api.service.ts:132-145 | at most one temperature per item |
| `WeatherApi.TemperaturesAreTmpValues` | src/weather-api-client/weather-api.service.ts:132-145 | a number is among the collected temperatures exactly when it is the parsed value of some `TMP` item |
| `WeatherApi.MaxOf` | src/weather-api-client/weather-api.service.ts:158 | the maximum is one of the values and bounds them all |
| `WeatherApi.MinOf` | src/weather-api-client/weather-api.service.ts:159 | the minimum is one of the values and is bounded by them all |
| `WeatherApi.FirstTemperatureIsEarliest` | src/weather-api-client/weather-api.service.ts:136-141 | the current temperature is `null` exactly when no `TMP` item is for the next hour, and otherwise the value of the earliest such item |
| `WeatherApi.LastValueIsLatest` | src/weather-api-client/weather-api.service.ts:147-153 | the `SKY` and `PTY` codes kept are those of the latest item for the next hour, and `null` exactly when there is none |
| `WeatherApi.ProcessWeatherData` | src/weather-api-client/weather-api.service.ts:117-168 | the loop returns the day summary: first temperature at the next hour, maximum and minimum of all temperatures, and the label of the last `SKY` and `PTY` codes at the next hour |
| `WeatherApi.DayExtremes` | src/weather-api-client/weather-api.service.ts:156-160 | every temperature of the day lies between the reported minimum and maximum, which are present |
| `WeatherApi.NoTemperatures` | src/weather-api-client/weather-api.service.ts:156-160 | without any `TMP` item the maximum and minimum are `null` |
| `WeatherApi.Distinct` | src/weather-api-client/weather-api.service.ts:234-237 | the distinct values, in order of first occurrence, are exactly the values counted |
| `WeatherApi.IndexKeys` | src/weather-api-client/weather-api.service.ts:239 | the keys JavaScript enumerates first are exactly the array-index keys |
| `WeatherApi.OtherKeys` | src/weather-api-client/weather-api.service.ts:239 | the keys enumerated after them are exactly the other keys |
| `WeatherApi.InsertIndex` | src/weather-api-client/weather-api.service.ts:239 | inserting an index key keeps the list ascending and adds exactly that key |
| `WeatherApi.SortIndices` | src/weather-api-client/weather-api.service.ts:239 | the index keys in ascending numeric order, none lost or added |
| `WeatherApi.EnumerationOrder` | src/weather-api-client/weather-api.service.ts:239 | `Object.keys` enumerates exactly the keys added |
| `WeatherApi.FrequencyKeys` | src/weather-api-client/weather-api.service.ts:234-239 | the frequency table's keys are exactly the values counted |
| `WeatherApi.FrequencyKeysShape` | src/weather-api-client/weather-api.service.ts:234-239 | the frequency table's keys are the index keys in ascending order followed by the other keys |
| `WeatherApi.MostFrequentKey` | src/weather-api-client/weather-api.service.ts:239-241 | the reduce picks a key that occurs at least as often as every other key |
| `WeatherApi.MostFrequentKeyIsLastOfTies` | src/weather-api-client/weather-api.service.ts:239-241 | among equally frequent keys the reduce keeps the last one enumerated |
| `WeatherApi.Mode` | src/weather-api-client/weather-api.service.ts:234-250 | there is a most frequent value exactly when there are values, and it is a value occurring most often |
| `WeatherApi.ModeTieGoesToLargerCode` | src/weather-api-client/weather-api.service.ts:234-250 | of two equally frequent numeric codes the smaller is never picked |
| `WeatherApi.ValuesOf` | src/weather-api-client/weather-api.service.ts:206-221 | a value is collected exactly when some item of the category carries it |
| `WeatherApi.ProcessWeatherDataV2` | src/weather-api-client/weather-api.service.ts:194-259 | the loop returns the day summary from all the day's values, or the `TypeError` of reducing an empty key list when exactly one of `SKY` and `PTY` has values |
| `WeatherApi.V2LabelFromMostFrequent` | src/weather-api-client/weather-api.service.ts:231-258 | when the day has a `SKY` item and the summary succeeds, the label is that of the most frequent `SKY` and `PTY` codes and there is no current temperature |
| `KmaWeather.TimeRangeOf` | src/weather-client/services/kma-weather.service.ts:532-539 | 17:00 to 05:00, 05:00 to 11:00 and 11:00 to 17:00 are told apart exactly by the hour |
| `KmaWeather.ForecastHalfDay` | src/weather-client/services/kma-weather.service.ts:577-592 | fails, with the `TypeError` of reading `'0'` of `undefined`, exactly when the entry number is negative |
| `KmaWeather.MorningAnnouncementTable` | src/weather-client/services/kma-weather.service.ts:554-565 | announced between 05:00 and 11:00, entry `n` below 10 is day `n / 2`, in the morning exactly when `n` is even |
| `KmaWeather.OtherAnnouncementTables` | src/weather-client/services/kma-weather.service.ts:543-574 | announced at another hour, entry `n` within the table is day `(n + 1) / 2`, in the morning exactly when `n` is odd |
| `KmaWeather.OutOfTable` | src/weather-client/services/kma-weather.service.ts:577-592 | an entry number that is `NaN` or beyond the table gives today's afternoon |
| `KmaWeather.UpsertDates` | src/weather-client/services/kma-weather.service.ts:623-632 | a new date's record is appended; a known date's record stays in its place; no other date changes |
| `KmaWeather.FindUpsert` | src/weather-client/services/kma-weather.service.ts:623-644 | after an entry, its date's record is the old one, or a blank one for a new date, with that half day set; every other date's record is unchanged |
| `KmaWeather.LandForecasts` | src/weather-client/services/kma-weather.service.ts:604-654 | the only failure is the `TypeError` of reading `'0'` of `undefined` |
| `KmaWeather.LandStep` | src/weather-client/services/kma-weather.service.ts:612-645 | one entry fails only with the `TypeError` of reading `'0'` of `undefined` |
| `KmaWeather.LandDatesDistinct` | src/weather-client/services/kma-weather.service.ts:610-648 | the land forecast has one record per date |
| `KmaWeather.UpsertDistinct` | src/weather-client/services/kma-weather.service.ts:623-632 | an entry keeps the dates distinct |
| `KmaWeather.ParseLandFcst` | src/weather-client/services/kma-weather.service.ts:604-654 | the loop returns the land forecast of the items, a missing list read as empty |
| `KmaWeather.LandForecastsByDate` | src/weather-client/services/kma-weather.service.ts:610-648 | each date's record has the temperature and sky of the last morning entry and of the last afternoon entry for it, `-999` and `''` where there is none, and a date has a record exactly when an entry is for it |
| `KmaWeather.LastForIsLatest` | src/weather-client/services/kma-weather.service.ts:636-644 | the entry that decides a half day is the latest entry for it |
| `KmaWeather.LastForNone` | src/weather-client/services/kma-weather.service.ts:636-644 | a half day without entries keeps its blank values |
| `KmaWeather.LandFailsOnNegativeEntry` | src/weather-client/services/kma-weather.service.ts:612-645 | the land forecast fails exactly when some entry number is negative |
| `KmaWeather.StartDay` | src/weather-client/services/kma-weather.service.ts:351-354 | the first day read is day 4 or day 5 |
| `KmaWeather.StartDayOfAnnouncement` | src/weather-client/services/kma-weather.service.ts:351-354 | a 06:00 announcement is read from day 4 and an 18:00 one from day 5 |
| `KmaWeather.ParseMidTermLand` | src/weather-client/services/kma-weather.service.ts:339-394 | fails or is empty exactly when the first item is missing as above; otherwise one record per day from the start day to day 10, with `wf{d}Am`/`wf{d}Pm` up to day 7, `wf{d}` for both halves later, and `-999` temperatures |
| `KmaWeather.ParseMidTermTa` | src/weather-client/services/kma-weather.service.ts:400-434 | fails or is empty exactly when the first item is missing as above; otherwise one record per day from the start day to day 10, with `taMin{d}` and `taMax{d}` and empty skies |
| `KmaWeather.FoldMax` | src/weather-client/services/kma-weather.service.ts:133-141 | the fold is at least the start and every temperature for today, and is the start or one of them |
| `KmaWeather.FoldMin` | src/weather-client/services/kma-weather.service.ts:150-158 | the fold is at most the start and every temperature for today, and is the start or one of them |
| `KmaWeather.TodayExtremes` | src/weather-client/services/kma-weather.service.ts:127-159 | every temperature for today lies between today's low and today's high |
| `KmaWeather.TodayWithoutTemperatures` | src/weather-client/services/kma-weather.service.ts:127-159 | with no body or a `totalCount` of 0 the high and the low are both `-999`; with a nonzero count and an item list, even an empty one, holding no temperature for today they are `-999` and `999` |
| `KmaWeather.MidTermBaseLatest` | src/weather-client/services/kma-weather.service.ts:660-675 | the mid-term base time is the latest 06:00 or 18:00 release at least fifty minutes old |
| `WeatherService.BaseTime` | src/weather-client/services/weather.service.ts:55-66 | the base time is four characters, `HH00` |
| `WeatherService.BaseHourIsLatestSlot` | src/weather-client/services/weather.service.ts:55-66 | from 02:00 on the base hour is the latest issue hour not after the hour; before 02:00 it is 23 |
| `WeatherService.KeyOrderKeys` | src/weather-client/services/weather.service.ts:69-92 | the records follow the distinct keys, one for each key some item has |
| `WeatherService.GroupedKeys` | src/weather-client/services/weather.service.ts:69-80 | the map holds exactly the keys of the record order |
| `WeatherService.ParseWeatherData` | src/weather-client/services/weather.service.ts:68-93 | the loop returns one record per key in order of first appearance |
| `WeatherService.GroupedRecord` | src/weather-client/services/weather.service.ts:72-89 | a key's record is labelled by its first item, with the last `TMP` and the last `REH` value of its items, `null` where there is none |
| `WeatherService.FirstWithNone` | src/weather-client/services/weather.service.ts:72-80 | a key without a record has no items |
| `WeatherService.LastValueNone` | src/weather-client/services/weather.service.ts:82-89 | a key without items has no value of any category |
| `WeatherService.KeyOrderFollowsItems` | src/weather-client/services/weather.service.ts:72-80 | a record listed before another has an item before every item of the other |
| `WeatherService.KeyDeterminesDateAndTime` | src/weather-client/services/weather.service.ts:72 | when dates hold no `-`, two items share a record exactly when they share date and time |
| `WeatherService.KeysCollideOnDashes` | src/weather-client/services/weather.service.ts:72 | with a `-` in a date, different dates and times can share a key |
| `MediaUtil.ReadTrimmedAfter` | src/common/utils/media.util.ts:181 | reading after a tag throws the `TypeError` of `undefined.trim()` exactly when the line does not contain the tag |
| `MediaUtil.DetectAllSilence` | src/common/utils/media.util.ts:136-151 | the handler records the intervals of the scan of the lines |
| `MediaUtil.DetectKeepsLaterStarts` | src/common/utils/media.util.ts:145-147 | every interval recorded starts at or after `startTime` |
| `MediaUtil.StartLineOverwrites` | src/common/utils/media.util.ts:137-138 | a `silence_start` line replaces the pending start and records nothing |
| `MediaUtil.EndLinePairs` | src/common/utils/media.util.ts:139-150 | a `silence_end` line is ignored with no pending start, and clears the pending start otherwise |
| `MediaUtil.ParseSilenceOutput` | src/common/utils/media.util.ts:169-191 | the loop returns the intervals of the scan of the lines, or its error |
| `MediaUtil.ParseErrorPersists` | src/common/utils/media.util.ts:177-188 | an error on a line is the error of the whole log |
| `MediaUtil.ParseKeepsWindow` | src/common/utils/media.util.ts:182-184 | every interval kept starts at or after `startTime` and ends at or before `endTime` |
| `MediaUtil.ParseIsDetectWithinEnd` | src/common/utils/media.util.ts:121-191 | where trimming does not change `parseFloat`, the parser keeps exactly the handler's intervals that end by `endTime`, in the same order |
| `Whisper.FirstAfter` | src/stt-client/services/whisper.service.ts:110-112 | finds the first silence that starts after the time, and none exactly when no silence does |
| `Whisper.ChunkEndBounds` | src/stt-client/services/whisper.service.ts:104-119 | a chunk ends no earlier than ten minutes after its start or the end of the audio, whichever comes first |
| `Whisper.CountAfterShrinks` | src/stt-client/services/whisper.service.ts:103-131 | fewer silences start after a later time, strictly fewer when one starts in between, so the loop ends |
| `Whisper.SplitFile` | src/stt-client/services/whisper.service.ts:91-134 | no chunks exactly when the duration is not positive; the first starts at 0, each next one where the previous ended, each ends at the end of the first silence after its ideal end (or the duration), and the last reaches the duration |
| `Whisper.Shift` | src/stt-client/services/whisper.service.ts:73-79 | shifting keeps every segment |
| `Whisper.MergedText` | src/stt-client/services/whisper.service.ts:65-67 | the merged text is each non-empty chunk text after a space, in chunk order |
| `Whisper.MergedCount` | src/stt-client/services/whisper.service.ts:68-80 | the merge keeps every segment of every chunk |
| `Whisper.MergePrefix` | src/stt-client/services/whisper.service.ts:65-88 | merging more chunks only appends segments |
| `Whisper.MergedSegmentAt` | src/stt-client/services/whisper.service.ts:68-80 | segment `j` of chunk `k` follows the earlier chunks' segments, shifted by the end of the last segment merged before it |

## Left out

- SQL evaluation and TypeORM itself: the builder is a clause log. `getManyAndCount`'s rows and count are inputs of `SearchAndPaginateResults`.
- `JSON.stringify` is the `stringify` parameter of the filter context, and `SearchFilterV2Dto` only applies it to the parsed tree.
- `Number()` is modelled for decimal text only: white space, an optional sign, digits and at most one point. Hexadecimal, binary, octal and exponent forms, `Infinity`, and white space beyond ASCII are left out; the model reads them as no number. The number read is an exact rational: the rounding of long or precise decimals to the nearest double is not modelled.
- Request validation by class-validator is not modelled; its bounds appear as `ValidPagination` and as the `ASC`/`DESC` note on `SortDto`.
- `CaseConverterInterceptor.intercept` is plumbing around the two conversions (reading the request and mapping the response stream), and is not modelled; `Date.prototype.toISOString` is the `iso` parameter of `CamelToSnake`.
- Clocks and calendars: the current time is an hour and a minute, and dates are day offsets from today. Time zones, `dayjs` and `Date` formatting (`YYYYMMDD`, `YYYY-MM-DD`) and month lengths are not modelled. In `WeatherService`, the base date, which is the UTC date of `new Date()`, is not modelled.
- `parseFloat` and `Number` are parameters: `parseFloat` returning a whole number in `WeatherApi` and `WeatherService`, `Number` in `KmaWeather` and `parseFloat` returning `Option<real>` in `MediaUtil`, where `NaN` is `None`. Where an `int`-valued parameter stands for them, `NaN` results are not modelled.
- `ParseInt`: only text that starts with a digit is read; `parseInt`'s leading white space and sign are not modelled. `AddOneHour` is only applied to the base times the client itself produces.
- `ForecastHalfDay`: the entry number is a whole number or `NaN`; a fractional `numEf`, which also indexes `undefined` in the source, is not modelled.
- `KmaWeather.ParseLandFcst`: the announcement time is given as the day offset and hour it names; parsing `YYYYMMDDHHmm` text, and the `Invalid Date` an unreadable one gives, are left out. Records come out in insertion order; the lemmas state the set of records and each record's values, not their order.
- `KmaWeather.FirstItem`: a missing `body.items` object (as opposed to a missing `item` list) is not modelled. Neither are `null` entries in the land forecast list.
- The HTTP calls of the clients, the database lookups of region codes and grid conversion, and the logging around them are left out.
- `Whisper.SplitFile`: requires every silence to end, not before it starts. A `NaN` end, which ends the source's loop early, and the calls to ffmpeg that read the duration and cut the audio are left out. The loop's termination depends on that requirement.
- `Whisper`: `transcribeChunk` (the OpenAI call) and temporary file cleanup are left out. `Promise.all` keeps results in chunk order, so the sort by index is the identity and the results are modelled in chunk order. A missing `text` is the empty string.
- `MediaUtil.DetectAllSilence`: ffmpeg itself is left out; the handler is modelled over the log lines it receives, in order. The temporary output path and the `error` and `end` events are left out.
- `FilterOperators.IsCondition` and `FilterOperators.IsOperatorInlinesValue`: case mapping is ASCII only. JavaScript's `toUpperCase` follows Unicode, so a value such as `falſe` upper-cases to `FALSE` and is inlined as `= FALSE` by the source, while the model writes `IS falſe`.
- `CaseConverter.CamelToSnake`: a Date is a whole number of milliseconds and `iso` is total, so the `RangeError` that `toISOString` throws on an invalid Date, or one beyond ±8.64e15 ms, is not modelled.
- `CaseConverter.ObjectKeys` and `CaseConverter.AssignAllKeys`: objects are plain lists of properties. Assigning to the key `__proto__` on `{}`, which sets the prototype instead of adding a property, is not modelled; a response key such as `_Proto__`, which snake_case renames to it, reaches it too.
