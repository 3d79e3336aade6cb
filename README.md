# SavoREST translator core in Dafny

SavoREST reads a small DSL and generates the boilerplate of a Lumen (PHP) REST API. The DSL has two blocks:

- a `resources{...}` block of `define_resource: Name [KEY=VALUE, ...] && uri && table` declarations;
- an `accounts{...}` block of `define_account: name, roles, password, email` declarations.

From the resources, the translator writes three things:

- a route file with one `$router->group` per resource;
- one controller class per resource, holding a handler for each permitted operation;
- one model text, with a class per resource.

This project models the translator's core in `index.py`:

- `parse_resources_and_accounts`;
- `parse_resource_definitions`;
- `parse_account_definitions`;
- `generate_lumen_code`;
- the Python string operations they rely on: `strip`, `split` and `capitalize`.

It proves what these promise about their outputs.

Modules:

- `Wrappers`: `Option` and `Result`.
- `PyStr`: `str.isspace`, `strip()`, `split(sep)`, `capitalize()`, with lemmas about each.
- `OrderedDict`: a Python `dict` as a sequence of entries in insertion order.
  - `Put` is `d[k] = v`: it replaces an existing key's value in place and appends a new key at the end.
  - `Assign` is the dict a loop builds by assigning one value per entry of another dict.
- `Patterns`: hand-written matchers for the three fixed regular expressions.
  - `\w` is the ASCII word class; `\s` is `str.isspace`.
  - Each pattern is matched piece by piece: `GapWord` for `\s+(\w+)`, `AndWordAt` for `\s+&&\s+(\w+)`, `CommaWordAt` for `,\s+(\w+)`, `BracketAt` for the bracketed permissions and the tail, then the keyword.
  - `re.search` is modelled as `SearchBlock`, the leftmost match.
  - `re.finditer` is modelled as `ResourceScan` and `AccountScan`, successive non-overlapping matches that resume at the end of the previous match.
- `PatternLayout`: what the matchers accept, stated over the text itself.
  - Soundness: a match is exactly the keyword, the groups and non-empty whitespace gaps, laid out as the pattern demands.
  - Completeness: every such layout is matched, with those groups.
  - The scans: each capture is the match at the leftmost matching position, and the next scan starts at that match's end.
- `DslParser`: the three parsers. The two that loop are methods with the source's loops. Each is proved equal to a specification function: `ResourceDefinitions`, `AccountDefinitions` or `PermissionsOf`. The lemmas then state what those functions guarantee.
  - A `ValueError` from `key, value = perm.strip().split('=')` is the `MalformedPermission` error of a `Result`. It carries the stripped entry and the number of parts.
- `LumenCodegen`: `generate_lumen_code` as a method that keeps the source's three accumulators, its five permission tests per resource, and its two loops.
  - It is proved to produce `RouteTable`, `Controllers` and `ModelText`. These describe the output through `EmittedOps`, the list of operations a resource exposes.
  - The lemmas relate `EmittedOps` to an independent reference definition, `Filter` of the canonical order, and derive the gating, ordering and placement properties.

## Model

| member | source | states |
|---|---|---|
| `PyStr.StripSpec` | index.py:16 | `strip()` returns the infix of its input between the leading and trailing whitespace; the result neither starts nor ends with whitespace |
| `PyStr.StripStartSpec` | index.py:16 | the left half of `strip()`: a suffix of the input, preceded only by whitespace, not starting with whitespace |
| `PyStr.StripEndSpec` | index.py:16 | the right half of `strip()`: a prefix of the input, followed only by whitespace, not ending with whitespace |
| `PyStr.StripIdempotent` | index.py:16 | stripping twice is stripping once |
| `PyStr.StripKeepsCount` | index.py:38 | stripping never removes a non-space character such as `=`, so `perm.strip()` holds as many `=` as `perm` |
| `PyStr.SplitJoin` | index.py:37 | `split(c)` loses nothing: joining the parts with `c` gives back the input, and no part contains `c` |
| `PyStr.JoinSplit` | index.py:37 | the converse round trip: splitting a join of `c`-free parts gives back the parts |
| `PyStr.SplitLength` | index.py:38 | `split(c)` gives one more part than there are occurrences of `c` |
| `PyStr.SplitWithoutSeparator` | index.py:56 | a text without `c` splits into the one-element list of itself |
| `PyStr.SplitTrailingSeparator` | index.py:37 | a text ending in `c` has an empty last part |
| `PyStr.CapitalizeIdempotent` | index.py:81 | `capitalize()` applied to a capitalised name changes nothing |
| `PyStr.CapitalizeBlogPost` | index.py:81 | `"BlogPost".capitalize()` is `"Blogpost"`: interior capitals are lowered |
| `OrderedDict.Get` | index.py:134 | looking up `d[k]` finds a value exactly when `k` is one of the dict's keys |
| `OrderedDict.Put` | index.py:42 | after `d[k] = v`, looking up `k` gives `v` |
| `OrderedDict.PutKeys` | index.py:42 | `d[k] = v` keeps an existing key in its position and appends a new key at the end |
| `OrderedDict.PutExistingKeys` | index.py:42 | assigning an existing key leaves the key sequence unchanged |
| `OrderedDict.PutNewKeys` | index.py:42 | assigning a new key appends it to the key sequence |
| `OrderedDict.PutOther` | index.py:42 | `d[k] = v` leaves the value of every other key unchanged |
| `OrderedDict.PutKeepsDistinct` | index.py:42 | assignment never creates a repeated key |
| `OrderedDict.Dedup` | index.py:42-46 | first occurrences in order: the result has no repeats and holds exactly the input's elements |
| `OrderedDict.AssignKeys` | index.py:93 | assigning one value per entry of a dict with distinct keys gives the same keys in the same order |
| `OrderedDict.AssignGet` | index.py:93 | in that dict, each key holds the value computed from its own entry |
| `Patterns.SpaceEnd` | index.py:30 | `\s+` runs to the end of the longest whitespace run: whitespace up to the end, non-whitespace after it |
| `Patterns.WordEnd` | index.py:30 | `(\w+)` runs to the end of the longest word run: word characters up to the end, a non-word character after it |
| `Patterns.GapWord` | index.py:30 | a match of `\s+(\w+)` is a non-empty whitespace run followed by a whole word, and the match ends where the word ends; there is no match only when no whitespace starts there or no word character follows the run |
| `Patterns.IndexOfChar` | index.py:9 | the first `}` at or after a position, or none in the rest of the text |
| `Patterns.BlockAt` | index.py:9-10 | `kw\{([^}]*)\}` matches at a position exactly when `kw{` starts there and a `}` follows; the capture contains no `}` and is closed by one |
| `Patterns.SearchBlock` | index.py:12-13 | `re.search` returns the leftmost position where the block pattern matches, or none when no position matches |
| `Patterns.ResourceTailAt` | index.py:30 | the `\]\s+&&\s+(\w+)\s+&&\s+(\w+)` tail captures two words and ends at a word boundary |
| `Patterns.LazyPermsEnd` | index.py:30 | the lazy `(.*?)` stops at a position where the tail matches, with no newline before it |
| `Patterns.LazyPermsEndIsShortest` | index.py:30 | `(.*?)` is as short as possible: no earlier newline-free position lets the tail match |
| `Patterns.MatchResourceAt` | index.py:30 | a resource match has word-shaped name, URI and table groups and a newline-free permission group, and consumes at least one character |
| `Patterns.ResourceScan` | index.py:33 | every match `re.finditer` yields has that shape |
| `Patterns.MatchAccountAt` | index.py:51 | an account match has four word-shaped groups and consumes at least one character |
| `Patterns.AccountScan` | index.py:54 | every account match `re.finditer` yields has four word-shaped groups |
| `PatternLayout.GapWordAt` | index.py:30 | `\s+(\w+)` matches a non-empty whitespace run followed by a whole word, capturing that word |
| `PatternLayout.AndWordSound` | index.py:30 | a match of `\s+&&\s+(\w+)` is exactly a gap, `&&`, a gap and the captured word |
| `PatternLayout.AndWordComplete` | index.py:30 | every gap, `&&`, gap and whole word is matched by `\s+&&\s+(\w+)`, capturing that word |
| `PatternLayout.TailSound` | index.py:30 | a tail match is exactly `]`, gap, `&&`, gap, URI, gap, `&&`, gap, table |
| `PatternLayout.TailComplete` | index.py:30 | every such text, with the table run maximal, is matched by the tail with those two groups |
| `PatternLayout.LazyPermsEndAt` | index.py:30 | the lazy `(.*?)` takes a whole newline-free, `]`-free run when the tail matches right after it |
| `PatternLayout.BracketSound` | index.py:30 | a match from `[` on is exactly `[`, the permission group, and a tail |
| `PatternLayout.BracketComplete` | index.py:30 | every `[`, newline-free and `]`-free permission text and tail is matched with those groups |
| `PatternLayout.ResourceSound` | index.py:30 | a resource match at `p` is exactly `define_resource:`, gap, name, gap, `[`, permissions, `]`, gap, `&&`, gap, URI, gap, `&&`, gap, table, every gap a non-empty whitespace run |
| `PatternLayout.ResourceComplete` | index.py:30 | every text laid out that way, with the table run maximal and the permissions free of newlines and `]`, is matched at `p` with exactly those groups |
| `PatternLayout.CommaWordSound` | index.py:51 | a match of `,\s+(\w+)` is exactly a comma, a gap and the captured word |
| `PatternLayout.CommaWordComplete` | index.py:51 | every comma, gap and whole word is matched by `,\s+(\w+)`, capturing that word |
| `PatternLayout.AccountSound` | index.py:51 | an account match at `p` is exactly `define_account:`, gap, name, then three times a comma, a gap and a word, every gap a non-empty whitespace run |
| `PatternLayout.AccountComplete` | index.py:51 | every text laid out that way, with the email run maximal, is matched at `p` with exactly those four groups |
| `PatternLayout.FirstMatch` | index.py:33 | the leftmost position at or after the start where a matcher succeeds lies in range, and the matcher succeeds there with the reported groups and end |
| `PatternLayout.FirstMatchIsLeftmost` | index.py:33 | no position before the leftmost match matches; with no match, no position matches |
| `PatternLayout.ResourceScanFirst` | index.py:33 | `re.finditer` yields the match at the leftmost matching position, no skipped position matches, and the scan resumes at that match's end; with no matching position it yields nothing |
| `PatternLayout.AccountScanFirst` | index.py:54 | the same for the account pattern |
| `DslParser.PermissionPair` | index.py:38-39 | one entry unpacks exactly when it holds exactly one `=`; otherwise the error names the stripped entry and its `count('=') + 1` parts |
| `DslParser.PermissionPairParts` | index.py:38-39 | an entry that unpacks is `a=b` after stripping, with `=`-free `a` and `b`; the key and value are `a` and `b` stripped |
| `DslParser.ParsePermissions` | index.py:36-39 | the inner loop gives the permission dict of the bracket text, or the error of its first bad entry |
| `DslParser.ParseResourceDefinitions` | index.py:29-48 | the outer loop gives `ResourceDefinitions(content)`: the matches assigned into the dict in order, or the first error raised |
| `DslParser.ParseAccountDefinitions` | index.py:50-66 | the loop gives `AccountDefinitions(content)`: one record per match, in order |
| `DslParser.PermissionsFailureExtends` | index.py:37-39 | once an entry raises, the later entries do not matter: the whole list raises the same error |
| `DslParser.BuildFailureExtends` | index.py:33-46 | once a declaration raises, the whole scan raises the same error |
| `DslParser.PermissionsSuccessAt` | index.py:37-39 | in a list that parses, every entry holds exactly one `=` |
| `DslParser.PermissionsAllGood` | index.py:37-39 | a list whose every entry holds exactly one `=` parses |
| `DslParser.PermissionsFirstBad` | index.py:37-39 | the error raised names the first entry without exactly one `=` |
| `DslParser.PermissionsError` | index.py:37-39 | a permission list raises if and only if some entry does not hold exactly one `=` |
| `DslParser.EmptyPermissionListFails` | index.py:37-38 | an empty `[]` list raises, because `"".split(',')` is `[""]` and `""` has no `=` |
| `DslParser.TrailingCommaFails` | index.py:37-38 | a permission list ending in a comma raises |
| `DslParser.PermissionsHasKey` | index.py:39 | every entry's stripped key is in the parsed dict |
| `DslParser.PermissionsKeyFrom` | index.py:39 | every key of the parsed dict comes from one of the entries |
| `DslParser.PermissionsLastWins` | index.py:37-39 | the last entry naming a key gives that key's stripped value |
| `DslParser.BuildSuccessAt` | index.py:33-46 | in a scan that builds, every declaration's permission list parses |
| `DslParser.BuildAllGood` | index.py:33-46 | a scan whose every permission list parses builds |
| `DslParser.ResourcesFailIff` | index.py:33-46 | building the resource dict raises if and only if some declaration's permission list raises |
| `DslParser.ResourceKeyOrder` | index.py:42-46 | the resource dict's keys are the declared names with repeats dropped, in order of first declaration, and are distinct |
| `DslParser.ResourceLastWins` | index.py:42-46 | the last declaration of a name gives its entry: its permissions, its third capture as `uri` and its fourth as `table` |
| `DslParser.AccountsInOrder` | index.py:54-64 | one account per match in declaration order; `roles` is always the one-element list of the second capture |
| `DslParser.ParseResourcesAndAccounts` | index.py:8-27 | only a `resources{...}` block can make parsing fail; without one the resource dict is empty; without an `accounts{...}` block the account list is empty; the resource dict never holds a name twice |
| `DslParser.ResourceDefinitionsDistinct` | index.py:42-46 | a resource dict that parses has distinct names |
| `DslParser.NoResourcesBlock` | index.py:12-19 | when no `resources{` is followed by a `}`, the pattern finds nothing, the resource dict is empty, and that is not an error |
| `DslParser.NoAccountsBlock` | index.py:13-25 | when no `accounts{` is followed by a `}`, the account list is empty |
| `LumenCodegen.EmitRoutes` | index.py:80-89 | the five route tests append the route lines of the exposed operations, in order |
| `LumenCodegen.EmitRouteGroup` | index.py:79-90 | one resource's `$router->group` block, with the routes of its exposed operations, is appended to the route text |
| `LumenCodegen.EmitHandlers` | index.py:99-125 | the five handler tests append the handlers of the exposed operations, in order |
| `LumenCodegen.EmitController` | index.py:93-126 | one resource's controller text: header, the handlers of its exposed operations, closing brace |
| `LumenCodegen.EmitModels` | index.py:128-136 | the model loop appends every resource's class, in dict order, to one shared text |
| `LumenCodegen.GenerateLumenCode` | index.py:68-141 | the three outputs are the route table, the controller dict and the model text of the resource dict |
| `LumenCodegen.EmittedOpsIsFilter` | index.py:80-89 | the five written-out tests equal the reference definition: the canonical order filtered by each operation's permission |
| `LumenCodegen.FilterMembers` | index.py:80-89 | an operation survives the filter if and only if it is listed and its test passes |
| `LumenCodegen.FilterRanked` | index.py:80-89 | filtering keeps the listed order |
| `LumenCodegen.EmittedOpsMembers` | index.py:80-89 | an operation is routed and handled if and only if its key is absent or maps to a non-empty string |
| `LumenCodegen.EmittedOpsRanked` | index.py:80-89 | routes and handlers come in the order index, store, show, update, destroy, each at most once |
| `LumenCodegen.ReadGatesIndexAndShow` | index.py:80-85 | `READ` gates both index and show: one is emitted if and only if the other is |
| `LumenCodegen.AllowedByDefault` | index.py:80-89 | with no empty flag, all five operations are exposed: absent keys allow |
| `LumenCodegen.FalseFlagStillAllows` | index.py:88-89 | `DELETE=False` stores the non-empty string `"False"`, which is truthy, so destroy is still emitted |
| `LumenCodegen.EmptyFlagDenies` | index.py:80-88 | an empty flag (`DELETE=`) withholds its operation |
| `LumenCodegen.EmittedOpsCount` | index.py:79-90 | a resource gets `2·[READ] + [CREATE] + [UPDATE] + [DELETE]` routes, and as many handlers |
| `LumenCodegen.NoResources` | index.py:69-139 | with no resources the outputs are `"<?php\n\n?>"`, `{}` and `"<?php\n\n?>"` |
| `LumenCodegen.RouteGroupAt` | index.py:73-90 | every resource's route group sits in the route file, between the PHP tags, after the groups of the resources before it |
| `LumenCodegen.ModelClassAt` | index.py:129-136 | every resource's class, naming its own table, sits in the one model text after those of the resources before it; nothing is overwritten |
| `LumenCodegen.ControllerKeys` | index.py:93 | the controller dict's keys are exactly the resource names, in the same order |
| `LumenCodegen.ControllerAt` | index.py:93-126 | each resource's controller is the text generated from its own definition |
| `LumenCodegen.ControllersFollowDeclarations` | index.py:42-93 | from declarations to controllers: one controller per declared name, in order of first declaration |

Route lines and handlers are both generated from the same list `EmittedOps(perms)`. So a handler is present exactly when its route is, and in the same order. `EmittedOpsMembers` and `EmittedOpsRanked` state this once for both outputs.

## Left out

- `create_lumen_project`: it runs the external `composer` tool.
- File writing and the per-file write loop: filesystem I/O.
- The banner, the `input` prompt, command dispatch, `os.chdir`, and the top-level `try`/`except` around the file read: user interface and process state.
  - The source's `except` prints only "Error in Creation of Lumen Project" and Python's unpacking message. The model's `MalformedPermission` error records more: the stripped entry and its number of parts.
- Python's regex engine in general. The three fixed patterns are matched by hand.
  - `\w` is ASCII only here, where Python's is Unicode.
  - Other Unicode case mappings are not modelled either: `capitalize()` changes only ASCII letters.
- The order of keys inside a permission dict. It is modelled as a `map`, because the generator only looks values up.
- `LumenCodegen.GenerateLumenCode`: the source appends to `controller_code[resource_name]` with `+=` directly in the dict. The model builds the text in a local string and assigns it once with `Put`. This gives the same dict, because each resource name is assigned a fresh text at the start of its iteration.
- `LumenCodegen.GenerateLumenCode`: the per-resource loop bodies are factored into the methods `EmitRouteGroup` and `EmitController`, which keep the source's statements and tests.
- `LumenCodegen.GenerateLumenCode`, `LumenCodegen.ControllerKeys` and `LumenCodegen.ControllerAt` require distinct keys, as every Python dict has. Every dict the parser produces has distinct keys (`DslParser.ResourceKeyOrder`).
- `Patterns.MatchResourceAt`, `Patterns.ResourceTailAt` and `Patterns.ResourceScan`: their own contracts state only the shape of the groups. The exact layout they accept is stated by `PatternLayout.ResourceSound`, `PatternLayout.ResourceComplete`, `PatternLayout.TailSound`, `PatternLayout.TailComplete` and `PatternLayout.ResourceScanFirst`.
- `Patterns.MatchAccountAt` and `Patterns.AccountScan`: the same; see `PatternLayout.AccountSound`, `PatternLayout.AccountComplete` and `PatternLayout.AccountScanFirst`.
- `PatternLayout.ResourceComplete`: it covers permission texts without `]`. With a `]` inside, the lazy group stops at the first `]` after which the tail matches; `Patterns.LazyPermsEndIsShortest` states that case.
- `PatternLayout.ResourceScanFirst` and `PatternLayout.AccountScanFirst` speak of `ResourceMatcher(s)` and `AccountMatcher(s)`, which are the matchers themselves at every position of the text.
- The runtime behaviour of the generated PHP: only its text is modelled.

The model follows what `index.py` does, including where a reader might expect otherwise:

- A permission flag is tested for Python truthiness, not compared with a "disabled" literal. `DELETE=False` still emits the destroy route and handler. Only an empty value withholds it.
- `model_code` accumulates with `+=` (index.py:129-136). It is one text holding every resource's class in order; no class overwrites another.
- A malformed permission entry is any entry without exactly one `=`, which includes two `=` signs. The error does not name the resource.
- Account roles are never split: `\w+` cannot contain a comma, so `roles` is always a one-element list.
- A permission list with a trailing comma, or an empty `[]`, fails: the split leaves an empty entry.
