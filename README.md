# Transit catalogue, modelled in Dafny

The program reads a description of a city's bus network and answers
questions about it. Stops have names and coordinates. Buses have names and
routes through stops. A catalogue records which buses serve each stop. Two
front ends fill the catalogue:

- a line-oriented text reader (`Stop X: lat, lng, D1m to Y, ...`,
  `Bus B: A - B - C`);
- a JSON reader (`base_requests` and `stat_requests`).

Answers are either per-bus statistics (stop count, distinct stops, length)
or per-stop bus lists. A transport router turns the network into a weighted
graph, one edge per ride between two stops of the same bus, and turns a
shortest path into an itinerary of Waiting and Trip items. An SVG layer
stores text with the five predefined entities of section 4.6 of XML 1.0.

The repository holds two revisions of the program, `transport-catalogue/`
and `src/`. Each file is modelled as it stands, in its own module. Modules
whose names start with `Src` (and module `RequestHandler`) model `src/`.
Where the two revisions share code up to comments, or behave the same, it is
modelled once, and the `Src` module proves that its own parts agree with it.

## Modules

| module | models |
|---|---|
| `Catalogue` | the catalogue store of transport-catalogue/transport_catalogue.cpp: a class with the five containers, each method proved against a function on the abstract `Store` |
| `RouterWeight`, `SrcRouterWeight` | the edge weight `GraphData` of both transport_router.h files: order, sum and the speed factor |
| `Router` | graph construction, travel times and itineraries of transport-catalogue/transport_router.cpp |
| `InputReader` | transport-catalogue/input_reader.cpp: Trim, Split, ParseRoute, ParseCommandDescription, ParseDistanceToStop, and the three passes of ApplyCommands |
| `CLib` | `isspace`, `isdigit` and `std::stoi` over 32-bit `int`, shared by the readers |
| `Json`, `SrcJson` | the JSON loader, the string printer and the Node accessors of both json.cpp files (the loaders are the same code up to comments, the accessors behave the same) |
| `JsonTree`, `JsonBuilder`, `SrcJsonBuilder` | the builders of both json_builder.cpp files: a root node and a stack of paths into it |
| `JsonRequests` | what the two JSON readers share: request fields, splitting base requests, calls on the handler, stop and bus responses |
| `JsonReaderHeader` | the header-only reader of transport-catalogue/json_reader.h |
| `JsonReaderSource` | the reader of transport-catalogue/json_reader.cpp, with colours, points and map requests |
| `Svg`, `SrcSvg` | circles, polylines, texts and documents of both svg.cpp files |
| `RequestHandler` | the facade of src/request_handler.cpp: map selection, router initialisation and the route guard |
| `Wrappers`, `Strings`, `Sequences` | Option, Result, Outcome (a call log ended by an optional exception), string order and sorting, sequence lemmas |

Exceptions are values of `Wrappers.Exception`: `LogicError`,
`RuntimeError`, `OutOfRange`, `InvalidArgument`, `LengthError` (thrown by
`vector::reserve`), `ParsingError`. A step
whose effect C++ leaves undefined, such as dereferencing an empty optional
or indexing past the end of a vector, yields `UndefinedBehaviour`.

## Model

| member | source | states |
|---|---|---|
| Catalogue.TransportCatalogue.AddStop | transport-catalogue/transport_catalogue.cpp:13-24 | the new state is `WithStop` of the old one, and the store invariant is kept |
| Catalogue.WithStopNew | transport-catalogue/transport_catalogue.cpp:14-19 | an unseen stop name is appended to the stop list exactly once, its coordinates are recorded, it gets an empty bus table, and the buses are untouched |
| Catalogue.WithStopKnown | transport-catalogue/transport_catalogue.cpp:20-23 | a known stop name changes only that stop's coordinates; the stop list, the bus tables and the buses stay as they were, so repeating the call changes nothing |
| Catalogue.WithStopConsistent | transport-catalogue/transport_catalogue.cpp:13-24 | AddStop keeps the invariant: duplicate-free name lists that match the maps, a table for every stop, every route stop listing its bus, every listed bus known |
| Catalogue.TransportCatalogue.ProcessRouteStops | transport-catalogue/transport_catalogue.cpp:96-115 | the returned route is the given one, name for name, and the new state is `WithRouteStops` of the old one |
| Catalogue.WithRouteStopsNames | transport-catalogue/transport_catalogue.cpp:96-115 | the new stop list is the old one followed by `NewNames`: the route's names that are neither known nor earlier in the route, in route order; the list stays duplicate-free and matches the coordinates map |
| Catalogue.WithRouteStopNames | transport-catalogue/transport_catalogue.cpp:100-113 | one route name is registered when it is new, and nothing else changes |
| Catalogue.WithRouteStopsCoordinates | transport-catalogue/transport_catalogue.cpp:96-115 | known stops keep their coordinates; every name first seen on a route gets the placeholder (0, 0) |
| Catalogue.TransportCatalogue.RegisterBusName | transport-catalogue/transport_catalogue.cpp:117-130 | returns the bus name; the new state is `WithBusName` (a new bus is appended, a known bus has its route replaced and the list does not grow) |
| Catalogue.TransportCatalogue.UpdateStopInfo | transport-catalogue/transport_catalogue.cpp:132-137 | the new state is `WithStopInfo` of the old one |
| Catalogue.WithBusInTablesFacts | transport-catalogue/transport_catalogue.cpp:132-137 | UpdateStopInfo only inserts: each table ends up as it was plus the bus, exactly for the stops of the route, and no bus is removed |
| Catalogue.TransportCatalogue.AddBus | transport-catalogue/transport_catalogue.cpp:7-11 | the new state is `WithBus` of the old one (ProcessRouteStops, then RegisterBusName, then UpdateStopInfo), and the invariant is kept |
| Catalogue.WithBusShape | transport-catalogue/transport_catalogue.cpp:7-11 | each container after AddBus, stated in terms of the store before it |
| Catalogue.WithBusConsistent | transport-catalogue/transport_catalogue.cpp:7-11 | AddBus keeps the store invariant |
| Catalogue.WithBusNamesConsistent | transport-catalogue/transport_catalogue.cpp:117-130 | after AddBus both name lists are duplicate-free and match the containers they index |
| Catalogue.WithBusRoutesListed | transport-catalogue/transport_catalogue.cpp:132-137 | after AddBus every stop of every route has a table that lists the route's bus |
| Catalogue.WithBusTablesKnown | transport-catalogue/transport_catalogue.cpp:132-137 | after AddBus every bus listed in a table is a registered bus |
| Catalogue.WithBusServes | transport-catalogue/transport_catalogue.cpp:7-11 | after AddBus the bus is registered once with the given route, and every stop of the route lists it |
| Catalogue.WithBusCoordinates | transport-catalogue/transport_catalogue.cpp:96-115 | after AddBus a stop first seen on the route has coordinates (0, 0), and known stops keep theirs |
| Catalogue.BusStatOf | transport-catalogue/transport_catalogue.cpp:26-62 | "not found" exactly for an unknown bus; an empty route gives 0 stops, 0 unique stops and length 0; unique stops never exceed stops, with equality exactly when no stop repeats |
| Catalogue.TransportCatalogue.BusInfo | transport-catalogue/transport_catalogue.cpp:26-62 | the statistics are `BusStatOf` of the current store |
| Catalogue.TransportCatalogue.RouteStats | transport-catalogue/transport_catalogue.cpp:43-58 | the loop counts every stop of the route, collects its distinct stops and sums the legs between consecutive stops |
| Catalogue.StopSetSize | transport-catalogue/transport_catalogue.cpp:43-58 | the number of distinct stops is at most the number of stops, and equal to it exactly when no stop repeats |
| Catalogue.StopStatOf | transport-catalogue/transport_catalogue.cpp:64-92 | three outcomes: "not found" exactly for an unknown stop, "no buses" exactly for an empty table, otherwise every bus of the table listed once, in ascending order |
| Catalogue.TransportCatalogue.StopInfo | transport-catalogue/transport_catalogue.cpp:64-92 | the returned text is the one for the stop's outcome in `StopStatOf` |
| RouterWeight.LessComparesTotals | transport-catalogue/transport_router.h:34-36 | a < b exactly when spans_time + wait_time of a is below that of b |
| RouterWeight.LessIsStrictWeakOrder | transport-catalogue/transport_router.h:34-36 | operator< is irreflexive and transitive, and two weights are incomparable exactly when their totals are equal |
| RouterWeight.GreaterIsConverse | transport-catalogue/transport_router.h:38-40 | a > b exactly when b < a |
| RouterWeight.Add | transport-catalogue/transport_router.h:42-50 | the sum has a null start stop and a null bus, and its total is the sum of the totals |
| RouterWeight.AddIsComponentwise | transport-catalogue/transport_router.h:42-50 | spans_time, wait_time and span_count are added field by field |
| RouterWeight.AddAssociativeCommutative | transport-catalogue/transport_router.h:42-50 | + is associative and commutative on whole weights |
| RouterWeight.AddZero | transport-catalogue/transport_router.h:42-50 | adding the zero weight changes nothing but the two pointers, which become null |
| RouterWeight.AddMonotone | transport-catalogue/transport_router.h:34-50 | adding the same weight to both sides keeps their order |
| RouterWeight.FactorConvertsKmPerHour | transport-catalogue/transport_router.h:67 | the speed factor converts km/h into metres per minute: 60 times it is 1000 |
| SrcRouterWeight.LessComparesTotals | src/transport_router.h:34-36 | a < b exactly when spans_time + wait_time of a is below that of b |
| SrcRouterWeight.GreaterIsConverse | src/transport_router.h:38-40 | a > b exactly when b < a |
| SrcRouterWeight.Add | src/transport_router.h:42-50 | the sum has null pointers, and its total is the sum of the totals |
| SrcRouterWeight.AddIsComponentwise | src/transport_router.h:42-50 | spans_time, wait_time and span_count are added field by field |
| SrcRouterWeight.AddAssociativeCommutative | src/transport_router.h:42-50 | + is associative and commutative on whole weights |
| SrcRouterWeight.FactorConvertsKmPerHour | src/transport_router.h:67 | 60 times the speed factor is 1000 |
| SrcRouterWeight.RevisionsAgree | src/transport_router.h:34-50 | both revisions order and add weights alike and have the same speed factor |
| Router.VerticesIdInitialization | transport-catalogue/transport_router.cpp:39-48 | the ids are exactly 0..n-1, and the stop at catalogue position k gets id k, because the map's size is read before the insertion |
| Router.GraphInitialization | transport-catalogue/transport_router.cpp:50-66 | the graph has one vertex per stop, and its edges are those of every bus in catalogue order |
| Router.BusEdgesShape | transport-catalogue/transport_router.cpp:55-63 | a bus contributes its forward rides, followed by the rides of the reversed route exactly when it is not a roundtrip |
| Router.BusesEdgesWellFormed | transport-catalogue/transport_router.cpp:50-66 | every edge of the graph joins two catalogue stops and carries a start stop and a bus |
| Router.BusEdgesWellFormed | transport-catalogue/transport_router.cpp:55-63 | every edge of one bus, in both directions, joins catalogue stops and carries a start stop and a bus |
| Router.AddEdgesInGraph | transport-catalogue/transport_router.cpp:68-101 | the edges of the traversal are appended after the existing ones, ordered by i and then by j; the vertex count is unchanged |
| Router.RideEdgesCount | transport-catalogue/transport_router.cpp:73-100 | a traversal of m stops adds exactly m(m-1)/2 edges |
| Router.RowsCount | transport-catalogue/transport_router.cpp:73-100 | the first n rows of a traversal of m stops hold n(2m-n-1)/2 edges |
| Router.RowsArePairs | transport-catalogue/transport_router.cpp:73-100 | the edges are exactly the rides from a position i to a later position j: from vertex(stop i) to vertex(stop j), with span_count j-i, the configured wait, start stop i, the bus, and spans_time the travel-time difference |
| Router.RowMembers | transport-catalogue/transport_router.cpp:77-99 | row i holds exactly the rides from position i to each later position |
| Router.RideEdgesWellFormed | transport-catalogue/transport_router.cpp:84-96 | every edge of one traversal joins catalogue stops and carries a start stop and a bus |
| Router.CreateTravelTimesVector | transport-catalogue/transport_router.cpp:104-124 | the vector has the traversal's length, and entry k is the time from the first stop to stop k |
| Router.TimesNonDecreasing | transport-catalogue/transport_router.cpp:104-124 | the times start at 0 and never decrease when distances are non-negative and the speed is positive |
| Router.SegmentTimeNonNegative | transport-catalogue/transport_router.cpp:118-120 | one segment never takes negative time under those conditions |
| Router.TimesShift | transport-catalogue/transport_router.cpp:81 | the spans time of the ride from i to j is the travel time of the stretch from i to j taken on its own |
| Router.TimesPrefix | transport-catalogue/transport_router.cpp:109-121 | entry k only depends on the stops up to position k |
| Router.CalculateTime | transport-catalogue/transport_router.cpp:126-129 | the time in minutes, times the speed in metres per minute, is the distance |
| Router.GetDistance | transport-catalogue/transport_router.cpp:132-142 | the recorded road distance when there is one, otherwise the geographic distance truncated to an int |
| Router.TruncateToInt | transport-catalogue/transport_router.cpp:141 | a double is turned into an int by truncation toward zero |
| Router.FindStop | transport-catalogue/transport_router.cpp:27-28 | None exactly when no stop has the name; otherwise a catalogue position holding that name |
| Router.TransportRouter.constructor | transport-catalogue/transport_router.cpp:18-24 | the router keeps the catalogue and the settings and builds a valid graph over them |
| Router.TransportRouter.GetRoute | transport-catalogue/transport_router.cpp:26-37 | out_of_range exactly when either name has no vertex; no route exactly when the target is unreachable; otherwise an itinerary whose items add up to its total time |
| Router.TransportRouter.BuildRouteResponse | transport-catalogue/transport_router.cpp:144-173 | the items are a Waiting and then a Trip for every edge of the route, and the total time is the route weight's spans_time + wait_time |
| Router.ItemsShape | transport-catalogue/transport_router.cpp:148-166 | two items per edge, in edge order: Waiting(start stop, wait time), then Trip(bus, spans time, span count) |
| Router.ItemsAddUp | transport-catalogue/transport_router.cpp:169-172 | the times of the items add up to the total of the route's weights |
| InputReader.TrimTrimmed | transport-catalogue/input_reader.cpp:83-89 | Trim's result is no longer than its input and has no space at either end |
| InputReader.TrimEmpty | transport-catalogue/input_reader.cpp:83-89 | Trim gives the empty view exactly for an empty or all-space input |
| InputReader.TrimIsInner | transport-catalogue/input_reader.cpp:83-89 | the trimmed text is a contiguous stretch of the input |
| InputReader.Split | transport-catalogue/input_reader.cpp:91-108 | the loop yields the tokens of `SplitFrom` from position 0 |
| InputReader.SplitFromIsTokens | transport-catalogue/input_reader.cpp:91-108 | Split agrees with an independent reading: cut at every delimiter, trim each piece, drop the empty ones, in input order |
| InputReader.SplitTokensWellFormed | transport-catalogue/input_reader.cpp:91-108 | every token is non-empty, trimmed and free of the delimiter |
| InputReader.ParseRouteAsWritten | transport-catalogue/input_reader.cpp:110-120 | ParseRoute as written has no defined result exactly for a '-' route with no stops |
| InputReader.EmptyRouteIsUndefined | transport-catalogue/input_reader.cpp:115-119 | the empty description and a lone space reach the undefined step |
| InputReader.ParseRoute | transport-catalogue/input_reader.cpp:110-120 | the corrected ParseRoute agrees with the as-written one wherever that one is defined |
| InputReader.RouteShape | transport-catalogue/input_reader.cpp:110-120 | a '>' route is exactly its Split by '>'; a '-' route of n stops has 2n-1 entries, starts with its stops and reads the same backwards |
| InputReader.ParseCommandDescription | transport-catalogue/input_reader.cpp:122-141 | a line without a colon gives the empty description |
| InputReader.RejectedCommands | transport-catalogue/input_reader.cpp:123-136 | a line whose first space is not before its colon, or has only spaces between the two, gives the empty description |
| InputReader.ParseCommandShape | transport-catalogue/input_reader.cpp:138-140 | a non-empty result reads back as command, a space, more spaces, id, colon and description; the command has no space or colon, and the id starts with a non-space and has no colon |
| InputReader.ParseCommandRoundTrip | transport-catalogue/input_reader.cpp:122-141 | a well-formed line is cut back into the command, id and description it was made of |
| InputReader.ParseDistanceToStop | transport-catalogue/input_reader.cpp:54-72 | no space gives runtime_error; a result comes from two spaces, with the stop name after the second and the distance the stoi of the text before the first |
| InputReader.ParseDistanceRoundTrip | transport-catalogue/input_reader.cpp:54-72 | "<D>m to <stop>" reads back D and the stop name |
| InputReader.InputReader.ParseLine | transport-catalogue/input_reader.cpp:8-13 | the parsed line is appended to the stored commands exactly when its command is not empty |
| InputReader.InputReader.ApplyCommands | transport-catalogue/input_reader.cpp:15-36 | the catalogue calls made and the exception that stopped them are those of `Apply`: the stops pass, then the distances pass, then the buses pass, each with the routes and coordinates as the code as written reads them |
| InputReader.InputReader.ApplyPass | transport-catalogue/input_reader.cpp:17-35 | one loop runs over every stored command in order, until one throws |
| InputReader.PassesInOrder | transport-catalogue/input_reader.cpp:15-36 | every coordinate call comes before every distance call, and every distance call before every bus call |
| InputReader.BusPassCalls | transport-catalogue/input_reader.cpp:31-35 | the bus pass makes one AddBus per Bus command, in order, with that command's route, and stops with undefined behaviour exactly at the first Bus command whose route is an empty '-' route |
| InputReader.PassStops | transport-catalogue/input_reader.cpp:17-35 | once a pass has thrown on a prefix of the commands, the later commands are never applied |
| InputReader.ApplyCommand | transport-catalogue/input_reader.cpp:15-36 | one command in one pass does what `Step` says; a Bus command whose route ParseRoute as written leaves undefined gives undefined behaviour |
| InputReader.AddStop | transport-catalogue/input_reader.cpp:38-43 | the first two tokens are the coordinates; with fewer tokens the step is undefined, and a token std::stod does not convert throws invalid_argument |
| InputReader.ParseCoordinates | transport-catalogue/input_reader.cpp:76-81 | succeeds exactly when std::stod converts both texts, passing them on; otherwise invalid_argument |
| CLib.StoDAcceptsDecimal | transport-catalogue/input_reader.cpp:77-78 | std::stod accepts the decimal text of any number, negative or not, whatever follows it |
| CLib.StoDRejectsWords | transport-catalogue/input_reader.cpp:77-78 | std::stod rejects the empty text and text starting with a letter other than i or n |
| InputReader.SetDistances | transport-catalogue/input_reader.cpp:45-52 | one SetRoadDistance per token from index 2 on, in order; a malformed token throws |
| CLib.StoIOfDigits | transport-catalogue/input_reader.cpp:63 | std::stoi of a run of digits followed by a non-digit is the value of the digits |
| Json.ReadEscapeSequence | transport-catalogue/json.cpp:39-49 | only n, r, ", t and \ are decoded, each to the character the printer escapes that way; anything else is a ParsingError |
| Json.ParseString | transport-catalogue/json.cpp:51-66 | a loaded string ends after the position it started from and within the input; failure is always a ParsingError |
| Json.StringClosed | transport-catalogue/json.cpp:51-66 | a loaded string ends with the first unescaped quote |
| Json.LoadString | transport-catalogue/json.cpp:51-66 | the loop loads what `ParseString` says |
| Json.EscapeChar | transport-catalogue/json.cpp:293-318 | exactly the five specials get a two-character escape starting with a backslash; every other character is written as itself |
| Json.EscapeAppend | transport-catalogue/json.cpp:293-318 | escaping distributes over concatenation |
| Json.PrintString | transport-catalogue/json.cpp:293-318 | the printed text is the escaped string between double quotes |
| Json.EscapeDecodes | transport-catalogue/json.cpp:39-49 | ReadEscapeSequence undoes the printer's escape of each special character |
| Json.EscapeLoadsBack | transport-catalogue/json.cpp:51-66 | an escaped text followed by a quote loads back as the unescaped text |
| Json.StringRoundTrip | transport-catalogue/json.cpp:293-318 | a printed string, followed by anything, loads back as the same string |
| Json.ParseLiteral | transport-catalogue/json.cpp:102-145 | a literal loads exactly when its word is spelt out and followed by the end of input or one of ` , } ] :`, newline, tab |
| Json.LoadLiteral | transport-catalogue/json.cpp:104-115 | the character loop and the terminator check load what `ParseLiteral` says |
| Json.LoadNull | transport-catalogue/json.cpp:102-116 | loads what `ParseLiteral` says for "null" |
| Json.LoadBool | transport-catalogue/json.cpp:118-145 | loads what `ParseBool` says: "true" after a 't', otherwise "false" |
| Json.LiteralRoundTrip | transport-catalogue/json.cpp:258-264 | a printed null or bool loads back exactly when what follows it is a terminator or nothing |
| Json.ReadDigits | transport-catalogue/json.cpp:157-165 | read_digits needs one digit and then takes every digit that follows |
| Json.LoadDigits | transport-catalogue/json.cpp:157-165 | the loop reads what `ReadDigits` says |
| Json.ScanInteger | transport-catalogue/json.cpp:171-176 | a '0' alone, or a run of digits |
| Json.ScanFraction | transport-catalogue/json.cpp:179-184 | '.' and digits, when the next character is '.' |
| Json.ScanExponent | transport-catalogue/json.cpp:186-193 | 'e' or 'E', an optional sign and digits, when the next character is 'e' or 'E' |
| Json.ScanNumber | transport-catalogue/json.cpp:167-193 | the characters LoadNum consumes form an optional '-', an integer, an optional fraction and an optional exponent |
| Json.ReadNumber | transport-catalogue/json.cpp:148-193 | the reading half of LoadNum consumes what `ScanNumber` says |
| Json.ParseNum | transport-catalogue/json.cpp:147-205 | a loaded number ends within the input; failure is always a ParsingError |
| Json.NumberKind | transport-catalogue/json.cpp:178-205 | the number is an int exactly when it has no fraction and no exponent and stoi accepts it, and then its value is stoi's |
| Json.LoadNum | transport-catalogue/json.cpp:147-205 | LoadNum loads what `ParseNum` says |
| Json.IntRoundTrip | transport-catalogue/json.cpp:250-252 | a printed 32-bit int, followed by anything that cannot continue a number, loads back as that int |
| Json.StoIOfIntText | transport-catalogue/json.cpp:196-199 | std::stoi reads back the printed text of every 32-bit int |
| Json.ParseNode | transport-catalogue/json.cpp:207-235 | a loaded node ends after the position it started from |
| Json.LoadNode | transport-catalogue/json.cpp:207-235 | LoadNode loads what `ParseNode` says |
| Json.ParseArray | transport-catalogue/json.cpp:15-37 | a loaded array ends after the position it started from |
| Json.LoadArray | transport-catalogue/json.cpp:15-37 | the loop with its wait_comma flag loads what `ParseArray` says |
| Json.ArrayClosed | transport-catalogue/json.cpp:15-37 | a loaded array ends with the ']' that closes it |
| Json.UnclosedArrayThrows | transport-catalogue/json.cpp:15-37 | with no ']' left in the input, loading an array throws |
| Json.ArrayNeedsComma | transport-catalogue/json.cpp:26-30 | after an item, anything but white space followed by ',' or ']' is rejected |
| Json.ParseEntry | transport-catalogue/json.cpp:87-95 | a loaded entry ends after the position it started from |
| Json.LoadEntry | transport-catalogue/json.cpp:87-95 | the key must load as a string and be followed by ':', then the value is loaded |
| Json.ParseDict | transport-catalogue/json.cpp:68-100 | a loaded dictionary ends after the position it started from |
| Json.LoadDict | transport-catalogue/json.cpp:68-100 | the loop with its wait_comma flag loads what `ParseDict` says |
| Json.DictClosed | transport-catalogue/json.cpp:68-100 | a loaded dictionary ends with the '}' that closes it |
| Json.UnclosedDictThrows | transport-catalogue/json.cpp:68-100 | with no '}' left in the input, loading a dictionary throws |
| Json.DictKeepsFirst | transport-catalogue/json.cpp:95 | a key's value never changes once read, so a repeated key keeps its first value |
| Json.SkipWs | transport-catalogue/json.cpp:208 | `input >> ws` stops at the first non-space |
| Json.AsInt | transport-catalogue/json.cpp:348-350 | succeeds exactly on an int, giving its value; logic_error otherwise |
| Json.AsBool | transport-catalogue/json.cpp:352-354 | succeeds exactly on a bool, giving its value; logic_error otherwise |
| Json.AsDouble | transport-catalogue/json.cpp:356-364 | succeeds on a double, and on an int widened to double; logic_error otherwise |
| Json.AsString | transport-catalogue/json.cpp:366-368 | succeeds exactly on a string, giving it; logic_error otherwise |
| Json.AsArray | transport-catalogue/json.cpp:370-372 | succeeds exactly on an array, giving its items; logic_error otherwise |
| Json.AsMap | transport-catalogue/json.cpp:374-376 | succeeds exactly on a dictionary, giving its entries; logic_error otherwise |
| Json.AccessorsAgree | transport-catalogue/json.cpp:378-410 | each As* succeeds exactly when the matching Is* holds; AsDouble exactly when IsDouble (double or int) holds |
| SrcJson.TranscriptEscapedSimbol | src/json.cpp:264-273 | exactly the five specials get a two-character escape, which ReadEscapeSequence decodes back; every other character is itself |
| SrcJson.PrintString | src/json.cpp:275-282 | the printed text is the transcribed string between double quotes |
| SrcJson.TranscriptIsEscape | src/json.cpp:264-282 | this revision's transcription writes exactly what the other revision's printer writes |
| SrcJson.PrintedStringLoads | src/json.cpp:275-282 | a string printed by this revision, followed by anything, loads back unchanged |
| JsonBuilder.Builder.constructor | transport-catalogue/json_builder.cpp:8-9 | a fresh builder: a null root and a stack holding just the root |
| JsonBuilder.Assign | transport-catalogue/json_builder.cpp:47-49 | writing through the top pointer leaves the stack as it was, with the new value on top |
| JsonBuilder.Pop | transport-catalogue/json_builder.cpp:52 | popping removes exactly the top entry and leaves the root alone |
| JsonBuilder.Push | transport-catalogue/json_builder.cpp:29 | pushing adds a pointer to a child of the top node |
| JsonBuilder.KeyStep | transport-catalogue/json_builder.cpp:12-32 | Key succeeds exactly on a dictionary on top that lacks the key; it inserts the key with a null value and pushes it; otherwise logic_error |
| JsonBuilder.Builder.Key | transport-catalogue/json_builder.cpp:12-32 | the builder moves as `KeyStep` says, and is unchanged when it throws |
| JsonBuilder.ValueStep | transport-catalogue/json_builder.cpp:34-55 | Value throws exactly on an empty stack; it appends to an array on top and leaves the stack alone, and otherwise overwrites the top and pops it |
| JsonBuilder.Builder.Value | transport-catalogue/json_builder.cpp:34-55 | the builder moves as `ValueStep` says, and is unchanged when it throws |
| JsonBuilder.StartStep | transport-catalogue/json_builder.cpp:57-117 | a Start call throws exactly on an empty stack; inside an array it appends the empty container and pushes it, and otherwise overwrites the top with the container and keeps the stack depth |
| JsonBuilder.StartsInArray | transport-catalogue/json_builder.cpp:64-75 | on an array top, a Start call appends the empty container and pushes a pointer to it |
| JsonBuilder.StartsOver | transport-catalogue/json_builder.cpp:76-79 | on any other top, a Start call writes the empty container over it |
| JsonBuilder.Builder.Start | transport-catalogue/json_builder.cpp:57-117 | the shared body of the Start calls moves as `StartStep` says |
| JsonBuilder.Builder.StartDict | transport-catalogue/json_builder.cpp:57-82 | the builder moves as `StartDictStep` says, and is unchanged when it throws |
| JsonBuilder.Builder.StartArray | transport-catalogue/json_builder.cpp:101-117 | the builder moves as `StartArrayStep` says, and is unchanged when it throws |
| JsonBuilder.EndDictStep | transport-catalogue/json_builder.cpp:84-99 | EndDict succeeds exactly with a dictionary on top, and then pops exactly that entry; otherwise logic_error |
| JsonBuilder.Builder.EndDict | transport-catalogue/json_builder.cpp:84-99 | the builder moves as `EndDictStep` says, and is unchanged when it throws |
| JsonBuilder.EndArrayStep | transport-catalogue/json_builder.cpp:119-132 | EndArray succeeds exactly with an array on top, and then pops exactly that entry; otherwise logic_error |
| JsonBuilder.Builder.EndArray | transport-catalogue/json_builder.cpp:119-132 | the builder moves as `EndArrayStep` says, and is unchanged when it throws |
| JsonBuilder.Closes | transport-catalogue/json_builder.cpp:84-132 | the matching End call pops the container |
| JsonBuilder.BuildResult | transport-catalogue/json_builder.cpp:134-142 | Build succeeds exactly when the stack is empty, and then gives the root; otherwise logic_error |
| JsonBuilder.Builder.Build | transport-catalogue/json_builder.cpp:134-142 | the result is what `BuildResult` says of the builder's state |
| JsonBuilder.StartAtRoot | transport-catalogue/json_builder.cpp:57-82 | a Start call on a fresh builder turns the root into the empty container, which stays on top |
| JsonBuilder.MemberAtRoot | transport-catalogue/json_builder.cpp:12-55 | a new key and then its value, on a dictionary root, add that member and leave the root on top |
| JsonBuilder.ItemAtRoot | transport-catalogue/json_builder.cpp:41-46 | a value on an array root is appended, and the root stays on top |
| JsonBuilder.CloseAtRoot | transport-catalogue/json_builder.cpp:84-132 | closing the root container leaves the value complete |
| JsonBuilder.BuildsBack | transport-catalogue/json_builder.cpp:8-142 | round trip: from a fresh builder, the calls that describe any node never throw, and Build returns that node |
| SrcJsonBuilder.Builder.constructor | src/json_builder.cpp:10-11 | a fresh builder: a null root and a stack holding just the root |
| SrcJsonBuilder.Builder.Key | src/json_builder.cpp:14-34 | the insertion is tried first; a repeated key throws and leaves the dictionary unchanged; otherwise the new member is pushed |
| SrcJsonBuilder.AddObjectStep | src/json_builder.cpp:51-76 | throws exactly on an empty stack; appends to an array on top and pushes only a container; otherwise overwrites the top and pops unless the object is a container |
| SrcJsonBuilder.Builder.AddObject | src/json_builder.cpp:51-76 | the builder moves as `AddObjectStep` says, and is unchanged when it throws |
| SrcJsonBuilder.CloseBracketStep | src/json_builder.cpp:82-99 | throws unless the top holds the given container kind, and otherwise pops exactly that entry |
| SrcJsonBuilder.Builder.CloseBracket | src/json_builder.cpp:82-99 | the builder moves as `CloseBracketStep` says, and is unchanged when it throws |
| SrcJsonBuilder.Builder.Value | src/json_builder.cpp:37-39 | Value is AddObject of a non-container |
| SrcJsonBuilder.Builder.StartDict | src/json_builder.cpp:101-103 | StartDict is AddObject of an empty dictionary, as a container |
| SrcJsonBuilder.Builder.EndDict | src/json_builder.cpp:105-107 | EndDict is CloseBracket for dictionaries |
| SrcJsonBuilder.Builder.StartArray | src/json_builder.cpp:109-111 | StartArray is AddObject of an empty array, as a container |
| SrcJsonBuilder.Builder.EndArray | src/json_builder.cpp:113-115 | EndArray is CloseBracket for arrays |
| SrcJsonBuilder.Builder.Build | src/json_builder.cpp:117-125 | Build succeeds exactly when the stack is empty, and then gives the root |
| SrcJsonBuilder.StepAgrees | src/json_builder.cpp:37-115 | every call moves the builder exactly as in the other revision |
| SrcJsonBuilder.RunAgrees | src/json_builder.cpp:14-125 | any sequence of calls ends the same way in both revisions |
| SrcJsonBuilder.BuildsBack | src/json_builder.cpp:10-125 | round trip for this revision: the calls that describe a node build that node |
| JsonRequests.Field | transport-catalogue/json_reader.h:83-85 | a missing key gives out_of_range; a present one gives the accessor's result on its value |
| JsonRequests.Section | transport-catalogue/json_reader.h:21-22 | a request list is found exactly when the root is a dictionary whose key holds an array; a missing key gives out_of_range and a wrong type logic_error |
| JsonRequests.RequestType | transport-catalogue/json_reader.h:67-68 | the type is read exactly when the request is a dictionary with a string "type"; a missing key gives out_of_range and a wrong type logic_error |
| JsonRequests.SelectMembers | transport-catalogue/json_reader.h:66-76 | the selection of one type holds exactly the properties of the requests of that type |
| JsonRequests.SelectPartition | transport-catalogue/json_reader.h:66-76 | when every request is a stop or a bus, the two selections share out all of them |
| JsonRequests.SplitMeaning | transport-catalogue/json_reader.h:61-79 | the split succeeds exactly when every request is a stop or a bus, and then gives the stops and the buses in request order; otherwise the error of a request that is neither |
| JsonRequests.SplitRequests | transport-catalogue/json_reader.h:61-79 | the loop gives what `Split` says |
| JsonRequests.CollectMeaning | transport-catalogue/json_reader.h:107-109 | converting every element succeeds exactly when each conversion does, and then holds the results in order; otherwise the first failure |
| JsonRequests.DistanceEntriesFromMap | transport-catalogue/json_reader.h:93-98 | one entry per key of "road_distances", measured from the stop, to that key, with that key's value |
| JsonRequests.DistanceEntriesCover | transport-catalogue/json_reader.h:93-98 | every key of the map has an entry |
| JsonRequests.DistanceEntriesAscending | transport-catalogue/json_reader.h:94 | the entries come in strictly ascending key order, as std::map iterates |
| JsonRequests.BaseCallsCases | transport-catalogue/json_reader.h:20-29 | three cases: missing base requests, a request of another type, or the three passes run |
| JsonRequests.BaseCallsInOrder | transport-catalogue/json_reader.h:20-29 | every AddStop comes before every SetRoadDistance, and every SetRoadDistance before every AddBus |
| JsonRequests.AddStops | transport-catalogue/json_reader.h:81-88 | one AddStop per stop request, in order, until one throws |
| JsonRequests.SetRoadDistances | transport-catalogue/json_reader.h:90-100 | the road distances of every stop request, in order, until one throws |
| JsonRequests.SetStopDistances | transport-catalogue/json_reader.h:92-98 | one SetRoadDistance per entry of one stop's "road_distances", in key order |
| JsonRequests.StopResponseBuses | transport-catalogue/json_reader.h:137-158 | a known stop's response lists its buses sorted ascending, as a permutation of its table |
| JsonRequests.ResponsesCarryId | transport-catalogue/json_reader.h:137-175 | every response carries the request's id; the not-found responses carry only the id and "not found" |
| JsonRequests.MakeStopResponse | transport-catalogue/json_reader.h:137-158 | the response is `StopResponse` of the stop's table |
| JsonRequests.MakeBusResponse | transport-catalogue/json_reader.h:160-175 | the response is `BusResponse` of the bus's statistics |
| JsonRequests.OneResponsePerRequest | transport-catalogue/json_reader.h:31-53 | the output has exactly one response per request, the i-th answering the i-th request |
| JsonRequests.FirstFailureWins | transport-catalogue/json_reader.h:38-51 | when a stat request fails, nothing is output and the exception is that of the first failing request |
| JsonReaderHeader.RouteMeaning | transport-catalogue/json_reader.h:102-118 | a route exists exactly when every stop is a string (and, for a non-roundtrip bus, there is a stop); it has n or 2n-1 entries, starts with the stops and, when not a roundtrip, reads the same backwards |
| JsonReaderHeader.RouteIsResult | transport-catalogue/json_reader.h:102-118 | the names in order, followed for a non-roundtrip bus by the way back, are the route |
| JsonReaderHeader.JsonReader.CreateRoute | transport-catalogue/json_reader.h:102-118 | the loops give what `Route` says |
| JsonReaderHeader.EmptyBusIgnoresRoundtrip | transport-catalogue/json_reader.h:126-129 | a bus with no stops gets an empty route, and is_roundtrip is never read, even when absent |
| JsonReaderHeader.BusRoute | transport-catalogue/json_reader.h:120-135 | a bus with stops gets its names, or for a non-roundtrip bus the 2n-1 names out and back |
| JsonReaderHeader.JsonReader.ReadBus | transport-catalogue/json_reader.h:121-133 | the fields of one bus are read in order and give what `BusCall` says |
| JsonReaderHeader.JsonReader.AddBuses | transport-catalogue/json_reader.h:120-135 | one AddBus per bus request, in order, until one throws |
| JsonReaderHeader.JsonReader.ParseBaseRequests | transport-catalogue/json_reader.h:20-29 | the handler receives exactly the calls of `BaseCalls`, and the error is its error |
| JsonReaderHeader.JsonReader.RunPasses | transport-catalogue/json_reader.h:26-28 | the three passes run in order, each only if the one before it did not throw |
| JsonReaderHeader.JsonReader.RunLaterPasses | transport-catalogue/json_reader.h:27-28 | the distances pass, then the buses pass unless it threw |
| JsonReaderHeader.ParseBaseRequestsInOrder | transport-catalogue/json_reader.h:20-29 | every stop is added before any road distance, and every road distance before any bus |
| JsonReaderHeader.StatAnswerCarriesId | transport-catalogue/json_reader.h:38-51 | a request with an int id, a string type Stop or Bus and a string name is answered, and the answer carries the id |
| JsonReaderHeader.UnknownStatTypeThrows | transport-catalogue/json_reader.h:48-50 | any other type throws runtime_error |
| JsonReaderHeader.NameReadFirst | transport-catalogue/json_reader.h:40-42 | the name is read before the type is checked, so a request without one throws out_of_range whatever its type |
| JsonReaderHeader.JsonReader.Respond | transport-catalogue/json_reader.h:39-50 | the loop body gives what `StatAnswer` says |
| JsonReaderHeader.JsonReader.ParseStatRequests | transport-catalogue/json_reader.h:31-53 | the output is `StatResponses` of the document |
| JsonReaderSource.ToByte | transport-catalogue/json_reader.cpp:217-219 | static_cast<uint8_t> reduces modulo 256 and keeps a value already in 0..255 |
| JsonReaderSource.ParseColorCases | transport-catalogue/json_reader.cpp:202-233 | a string gives a named colour; another non-array gives logic_error; [] gives none; 3 elements give Rgb and 4 give Rgba, from the ints (and the double) or logic_error; any other length gives runtime_error |
| JsonReaderSource.ParseColorRoundTrip | transport-catalogue/json_reader.cpp:202-233 | every colour written as JSON reads back as itself |
| JsonReaderSource.PaletteMeaning | transport-catalogue/json_reader.cpp:235-249 | an empty array gives invalid_argument; otherwise the palette exists exactly when every colour parses, and then has one colour per element, in order |
| JsonReaderSource.PaletteRoundTrip | transport-catalogue/json_reader.cpp:235-249 | a non-empty palette written as JSON reads back as itself |
| JsonReaderSource.CreateColorPalette | transport-catalogue/json_reader.cpp:235-249 | the loop gives what `Palette` says |
| JsonReaderSource.ParsePoint | transport-catalogue/json_reader.cpp:251-260 | a point exactly for two numbers, x then y; another length gives runtime_error, a non-number logic_error |
| JsonReaderSource.ParsePointRoundTrip | transport-catalogue/json_reader.cpp:251-260 | a point written as a pair of doubles reads back as itself |
| JsonReaderSource.EmptyBusIsRoundtrip | transport-catalogue/json_reader.cpp:118-121 | a bus with no stops is added as a roundtrip with an empty route, whatever is_roundtrip says and even when it is absent |
| JsonReaderSource.BusCallMeaning | transport-catalogue/json_reader.cpp:112-127 | a bus with stops is added exactly when is_roundtrip is a bool and every stop a string, with its names in order and its flag |
| JsonReaderSource.JsonReader.CreateRoute | transport-catalogue/json_reader.cpp:97-110 | the stop names in order, or the first non-string's logic_error |
| JsonReaderSource.JsonReader.ReadBus | transport-catalogue/json_reader.cpp:113-125 | the fields of one bus are read in order (is_roundtrip before the route) and give what `BusCall` says |
| JsonReaderSource.JsonReader.ParseBuses | transport-catalogue/json_reader.cpp:112-127 | one AddBus per bus request, in order, until one throws |
| JsonReaderSource.JsonReader.ParseBaseRequests | transport-catalogue/json_reader.cpp:16-26 | the handler receives exactly the calls of `BaseCalls`, and the error is its error |
| JsonReaderSource.JsonReader.RunLaterPasses | transport-catalogue/json_reader.cpp:24-25 | SetRoadDistances, then ParseBuses unless it threw |
| JsonReaderSource.ParseBaseRequestsInOrder | transport-catalogue/json_reader.cpp:16-26 | every stop is added before any road distance, and every road distance before any bus |
| JsonReaderSource.JsonReader.RenderMap | transport-catalogue/json_reader.cpp:189-197 | the response holds the id and the rendered map |
| JsonReaderSource.StatAnswerMeaning | transport-catalogue/json_reader.cpp:35-51 | a request is answered exactly when it has an int id, a string type among Stop, Bus and Map, and a string name for Stop and Bus; the answer carries the id, and Map gives the map response |
| JsonReaderSource.UnknownStatTypeThrows | transport-catalogue/json_reader.cpp:48-50 | any other type throws runtime_error, whether or not a name is present |
| JsonReaderSource.StatResponsesInOrder | transport-catalogue/json_reader.cpp:28-55 | one response per request, the i-th answering the i-th; a failure outputs nothing and is the first failing request's |
| JsonReaderSource.JsonReader.Respond | transport-catalogue/json_reader.cpp:36-50 | the loop body gives what `StatAnswer` says |
| JsonReaderSource.JsonReader.ParseStatRequests | transport-catalogue/json_reader.cpp:28-55 | the output is `StatResponses` of the document |
| Svg.EscapeChar | transport-catalogue/svg.cpp:96-112 | a special character becomes an entity from '&' to ';', any other character itself, and the text never holds a raw quote, apostrophe or angle bracket |
| Svg.Text.SetData | transport-catalogue/svg.cpp:95-117 | the stored data is the escaped text, and no other field changes |
| Svg.EscapeHasNoMarkup | transport-catalogue/svg.cpp:96-113 | the escaped data never holds a raw `"`, `'`, `<` or `>` |
| Svg.UnescapeEscape | transport-catalogue/svg.cpp:96-113 | replacing each entity back by its character recovers the data exactly |
| Svg.EscapeKeepsPlainText | transport-catalogue/svg.cpp:105-113 | data without any of the five characters is stored unchanged |
| Svg.Circle.constructor | transport-catalogue/svg.h:254-255 | a new circle is centred at the origin with radius 1 |
| Svg.Circle.SetCenter | transport-catalogue/svg.cpp:23-26 | only the centre changes, and the circle itself is returned |
| Svg.Circle.SetRadius | transport-catalogue/svg.cpp:28-31 | only the radius changes, and the circle itself is returned |
| Svg.Polyline.AddPoint | transport-catalogue/svg.cpp:44-47 | the point goes at the end, after the unchanged earlier points |
| Svg.Text.constructor | transport-catalogue/svg.h:287-292 | a new text is at the origin with no offset, font size 1, no weight, no family and no data |
| Svg.Text.SetPosition | transport-catalogue/svg.cpp:70-73 | only the position changes |
| Svg.Text.SetOffset | transport-catalogue/svg.cpp:75-78 | only the offset changes |
| Svg.Text.SetFontSize | transport-catalogue/svg.cpp:80-83 | only the font size changes |
| Svg.Text.SetFontFamily | transport-catalogue/svg.cpp:85-88 | only the font family changes |
| Svg.Text.SetFontWeight | transport-catalogue/svg.cpp:90-93 | only the font weight changes |
| Svg.Document.AddPtr | transport-catalogue/svg.cpp:142-144 | the object goes at the end; the earlier objects stay as they were, in order |
| SrcSvg.Text.SetData | src/svg.cpp:92-114 | the stored data is the escaped text (the entities held as string views), and no other field changes |
| SrcSvg.Circle.SetCenter | src/svg.cpp:20-23 | only the centre changes, and the circle itself is returned |
| SrcSvg.Circle.SetRadius | src/svg.cpp:25-28 | only the radius changes, and the circle itself is returned |
| SrcSvg.Polyline.AddPoint | src/svg.cpp:41-44 | the point goes at the end, after the unchanged earlier points |
| SrcSvg.Text.SetPosition | src/svg.cpp:67-70 | only the position changes |
| SrcSvg.Text.SetOffset | src/svg.cpp:72-75 | only the offset changes |
| SrcSvg.Text.SetFontSize | src/svg.cpp:77-80 | only the font size changes |
| SrcSvg.Text.SetFontFamily | src/svg.cpp:82-85 | only the font family changes |
| SrcSvg.Text.SetFontWeight | src/svg.cpp:87-90 | only the font weight changes |
| SrcSvg.Document.AddPtr | src/svg.cpp:139-141 | the object goes at the end; the earlier objects stay as they were, in order |
| RequestHandler.ValidStopsMeaning | src/request_handler.cpp:41-47 | the stop selection succeeds exactly when the catalogue knows every stop, and then holds exactly the stops with a non-empty bus set, once each, in catalogue order |
| RequestHandler.ValidBusesMeaning | src/request_handler.cpp:53-57 | the bus selection holds exactly the buses with a non-empty stop list, once each, in catalogue order |
| RequestHandler.RequestHandler.RenderMap | src/request_handler.cpp:37-64 | an unknown stop is undefined behaviour; otherwise both lists are sorted by name and are permutations of the selections |
| RequestHandler.RenderMapSelection | src/request_handler.cpp:37-64 | the renderer gets exactly the stops some bus serves and exactly the buses with stops, each once |
| RequestHandler.RequestHandler.GetBusStat | src/request_handler.cpp:13-15 | the catalogue's answer, unchanged |
| RequestHandler.RequestHandler.GetStopStat | src/request_handler.cpp:17-19 | the catalogue's answer, unchanged |
| RequestHandler.RequestHandler.RouterInitialization | src/request_handler.cpp:66-68 | a new router over the catalogue replaces any earlier one |
| RequestHandler.RequestHandler.BuildRoute | src/request_handler.cpp:70-76 | logic_error before RouterInitialization; otherwise the router's answer: out_of_range for an unknown stop, none exactly when the target is unreachable, and else the Waiting and Trip items of the search's path with its total weight |

## Modelling choices

- Doubles are exact `real`s. Integers that C++ keeps in `int` are
  unbounded, except where the width is observable: `std::stoi` accepts
  only values in [-2^31, 2^31-1] (`CLib.StoI`), and `static_cast<uint8_t>`
  reduces modulo 256 (`JsonReaderSource.ToByte`).
- An `std::istream` is a string with a cursor. A loader returns the node and
  the cursor after it, or the exception it throws.
- A pointer into a container is an index (a stop or bus in catalogue
  order) or a path from the JSON root (`JsonTree.Path`).
- The catalogue the readers and the router use is a different revision from
  transport_catalogue.cpp: its header declares SetRoadDistance,
  GetAllStops, GetBusesByStop and other accessors that the .cpp does not
  define. The readers therefore record the calls they make (`Handler`,
  `Outcome`), the router reads an abstract `Router.Network`, and the
  request handler and the stat answers read a `Db` of the catalogue's
  answers.
- The router that src/request_handler.cpp owns is modelled by module
  `Router`, which follows transport-catalogue/transport_router.cpp:
  src/transport_router.cpp is not part of this model, and
  src/transport_router.h declares the same interface.
- graph::Router is not part of this model. Its answer is a parameter of
  GetRoute, restricted by `Router.IsShortestPathSearch`: a path from the
  source to the target of least total weight, or None exactly when the
  target is unreachable.
- The JSON reader of json_reader.h reads "name" before it checks the type.
  The one of json_reader.cpp reads it only for Stop and Bus. Both orders are
  modelled as written, with the exception each order implies.
- JsonReaderHeader's CreateRoute expands a non-roundtrip route itself,
  while the .cpp reader passes the flag to the catalogue.
- The BusesTable of a stop is iterated in ascending name order, as a
  std::set of names would be.

## Left out

- Great-circle distance (geo.h is not part of this model): an
  uninterpreted function, assumed non-negative only where a lemma says so.
- IEEE rounding, infinities and NaN: doubles are exact reals. The curvature
  of a bus response (a division of doubles) is not modelled.
- The numeric values std::stod gives: LoadNum's double is the exact value
  of its text, and ParseCoordinates passes on the two texts once std::stod
  accepts them.
- InputReader.AddStop: does not raise std::stod's out_of_range for a
  coordinate beyond the range of double, because doubles are exact reals.
- Json.ParseNum: a number beyond the range of double, for which std::stod
  throws out_of_range and LoadNum a ParsingError, loads as its exact value,
  because doubles are exact reals.
- Printing: only strings, ints and literals of the JSON printer are
  modelled, for the round trips. Arrays, dicts, doubles, indentation, the
  `{:.6g}` formatting of BusInfo's text and Node/Document equality are
  left out.
- svg.h rendering (Render, RenderObject, PathProps attributes, Star and
  Snowman with sin/cos), src/map_renderer.cpp and map_renderer.h: formatted
  text output and floating-point projection.
- GetRenderSettings, SetRenderSettings and the request handler's
  forwarding of AddStop, AddBus and SetRoadDistance: field copying and
  forwarding into a catalogue that is not part of this model.
- transport-catalogue/stat_reader.cpp and stat_reader.h, main.cpp,
  request_handler.h, src/json_reader.h and json.h: stream I/O, delegation
  and declarations.
- The context classes of both json_builder.h files: they only restrict
  which calls compile, and add nothing at run time.
- graph::DirectedWeightedGraph is an edge list with a vertex count;
  graph::Router is a parameter, described above.
- Router.CalculateTime: requires a non-zero speed; a speed of 0 gives an
  IEEE infinity, which exact reals do not have.
- Router.TransportRouter.GetRoute: its answer is stated only for a search
  satisfying `IsShortestPathSearch`, the contract of graph::Router.
- RequestHandler.RequestHandler.RouterInitialization: requires a non-zero
  speed and a well-formed network (every bus stop is a catalogue stop), as
  the catalogue of a revision not shown guarantees.
- RequestHandler.RequestHandler.RenderMap: states the order among buses or
  stops with equal names only through the sort's permutation property, as
  std::sort leaves it unspecified.
- Catalogue.TransportCatalogue.BusInfo: returns the three numbers, not the
  formatted text.
- Memory: vector reserve, string_view lifetimes and std::move are not
  modelled.

## Findings

| source | as written | input that shows it | evidently intended | confidence | as-written member | corrected member |
|---|---|---|---|---|---|---|
| transport-catalogue/input_reader.cpp:115-119 | a '-' route with no stops calls `next(stops.rbegin())` on an empty vector, which is undefined | the description " " (a Bus command "Bus B: " with nothing after the colon) | an empty route | not executed | InputReader.ParseRouteAsWritten | InputReader.ParseRoute |
