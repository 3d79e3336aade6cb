/**
 * `generate_lumen_code`: from the resource dict, the route file text, one controller
 * text per resource, and one model text holding a class per resource. The method
 * keeps the source's accumulators and its permission tests; the functions below
 * describe the same output through the list of operations each resource exposes.
 */
module LumenCodegen {
  import opened Wrappers
  import opened PyStr
  import opened OrderedDict
  import opened DslParser
  import opened Patterns

  /** The five handlers, each with its route. */
  datatype Op = Index | Store | Show | Update | Destroy

  /** The fixed order in which routes and handlers are emitted. */
  const CanonicalOrder: seq<Op> := [Index, Store, Show, Update, Destroy]

  function Rank(op: Op): nat {
    match op
    case Index => 0
    case Store => 1
    case Show => 2
    case Update => 3
    case Destroy => 4
  }

  /** The permission key tested before emitting each operation; READ gates two of them. */
  function GateKey(op: Op): string {
    match op
    case Index => "READ"
    case Store => "CREATE"
    case Show => "READ"
    case Update => "UPDATE"
    case Destroy => "DELETE"
  }

  /**
   * Python truthiness of `permissions.get(key, True)`: the default `True` when the key
   * is absent, otherwise the stored string, which is true unless empty.
   */
  predicate Allowed(perms: map<string, string>, key: string) {
    key !in perms || perms[key] != ""
  }

  /** The operation `op` if its permission test passes, otherwise nothing. */
  function Emit(perms: map<string, string>, op: Op): seq<Op> {
    if Allowed(perms, GateKey(op)) then [op] else []
  }

  /** The operations a resource with these permissions exposes: the five tests in their fixed order. */
  function EmittedOps(perms: map<string, string>): seq<Op> {
    Emit(perms, Index) + Emit(perms, Store) + Emit(perms, Show) + Emit(perms, Update) + Emit(perms, Destroy)
  }

  /** Reference definition: the operations of `ops` whose permission test passes, in order. */
  function Filter(perms: map<string, string>, ops: seq<Op>): seq<Op> {
    if ops == [] then []
    else Filter(perms, ops[..|ops| - 1]) + Emit(perms, ops[|ops| - 1])
  }

  /** The texts of `xs` one after another: what a loop doing `code += text(x)` appends. */
  function Concat<T>(xs: seq<T>, text: T -> string): string {
    if xs == [] then "" else Concat(xs[..|xs| - 1], text) + text(xs[|xs| - 1])
  }

  // ---------------------------------------------------------------- routes

  const PhpOpen := "<?php\n\n"
  const PhpClose := "?>"

  function GroupOpen(uri: string): string {
    "$router->group(['prefix' => '" + uri + "'], function () use ($router) {\n"
  }

  const GroupClose := "});\n\n"

  function RouteLine(cap: string, op: Op): string {
    match op
    case Index => "    $router->get('/', '" + cap + "Controller@index');\n"
    case Store => "    $router->post('/', '" + cap + "Controller@store');\n"
    case Show => "    $router->get('/{id}', '" + cap + "Controller@show');\n"
    case Update => "    $router->put('/{id}', '" + cap + "Controller@update');\n"
    case Destroy => "    $router->delete('/{id}', '" + cap + "Controller@destroy');\n"
  }

  function RouteLines(cap: string, ops: seq<Op>): string {
    if ops == [] then "" else RouteLines(cap, ops[..|ops| - 1]) + RouteLine(cap, ops[|ops| - 1])
  }

  /** The route group of one resource: mounted at its URI, one route per exposed operation. */
  function RouteBlock(name: string, r: Resource): string {
    GroupOpen(r.uri) + RouteLines(Capitalize(name), EmittedOps(r.permissions)) + GroupClose
  }

  function RouteBlockOf(e: Entry<Resource>): string {
    RouteBlock(e.key, e.value)
  }

  /** The text of `routes/web.php`. */
  function RouteTable(d: Dict<Resource>): string {
    PhpOpen + Concat(d, RouteBlockOf) + PhpClose
  }

  // ---------------------------------------------------------------- controllers

  function ControllerHeader(cap: string): string {
    "<?php\n\n"
    + "namespace App\\Http\\Controllers;\n\n"
    + "use App\\Models\\" + cap + ";\n"
    + "use Illuminate\\Http\\Request;\n\n"
    + "class " + cap + "Controller extends Controller\n"
    + "{\n"
  }

  function Handler(cap: string, op: Op): string {
    match op
    case Index =>
      "    public function index()\n" + "    {\n"
      + "        return response()->json(" + cap + "::all());\n" + "    }\n\n"
    case Store =>
      "    public function store(Request $request)\n" + "    {\n"
      + "        return response()->json(" + cap + "::create($request->all()), 201);\n" + "    }\n\n"
    case Show =>
      "    public function show($id)\n" + "    {\n"
      + "        return response()->json(" + cap + "::find($id));\n" + "    }\n\n"
    case Update =>
      "    public function update(Request $request, $id)\n" + "    {\n"
      + "        " + cap + "::findOrFail($id)->update($request->all());\n"
      + "        return response()->json(" + cap + "::find($id));\n" + "    }\n\n"
    case Destroy =>
      "    public function destroy($id)\n" + "    {\n"
      + "        " + cap + "::findOrFail($id)->delete();\n"
      + "        return response()->json(null, 204);\n" + "    }\n"
  }

  function Handlers(cap: string, ops: seq<Op>): string {
    if ops == [] then "" else Handlers(cap, ops[..|ops| - 1]) + Handler(cap, ops[|ops| - 1])
  }

  const ControllerClose := "}\n\n"

  /** The controller of one resource: one handler per exposed operation. */
  function ControllerText(name: string, r: Resource): string {
    ControllerHeader(Capitalize(name)) + Handlers(Capitalize(name), EmittedOps(r.permissions)) + ControllerClose
  }

  /** The controller dict: each resource name assigned its controller text, in order. */
  function ControllerOf(e: Entry<Resource>): string {
    ControllerText(e.key, e.value)
  }

  function Controllers(d: Dict<Resource>): Dict<string> {
    Assign(d, ControllerOf)
  }

  // ---------------------------------------------------------------- models

  /** The model class of one resource, bound to its table. */
  function ModelClass(cap: string, table: string): string {
    "namespace App\\Models;\n\n"
    + "use Illuminate\\Database\\Eloquent\\Model;\n\n"
    + "class " + cap + " extends Model\n"
    + "{\n"
    + "    protected $table = '" + table + "';\n"
    + "    protected $fillable = ['*'];\n"
    + "}\n\n"
  }

  function ModelClassOf(e: Entry<Resource>): string {
    ModelClass(Capitalize(e.key), e.value.table)
  }

  /** The one shared model text: every resource's class, in dict order. */
  function ModelText(d: Dict<Resource>): string {
    PhpOpen + Concat(d, ModelClassOf) + PhpClose
  }

  // ---------------------------------------------------------------- the generator

  /** Associativity of `+` on strings: a built-in fact, stated so the loops below can cite it. */
  lemma AppendAssoc(a: string, b: string, c: string)
    ensures a + b + c == a + (b + c)
  {
  }

  /** One permission test of a route group: the route of `op` is appended when the test passes. */
  function RouteIf(code: string, cap: string, perms: map<string, string>, op: Op): (r: string)
    ensures Allowed(perms, GateKey(op)) ==> r == code + RouteLine(cap, op)
    ensures !Allowed(perms, GateKey(op)) ==> r == code
  {
    if Allowed(perms, GateKey(op)) then code + RouteLine(cap, op) else code
  }

  /** One permission test of a controller: the handler of `op` is appended when the test passes. */
  function HandlerIf(code: string, cap: string, perms: map<string, string>, op: Op): (r: string)
    ensures Allowed(perms, GateKey(op)) ==> r == code + Handler(cap, op)
    ensures !Allowed(perms, GateKey(op)) ==> r == code
  {
    if Allowed(perms, GateKey(op)) then code + Handler(cap, op) else code
  }

  /** A passing test appends exactly the route of the operation it adds to the exposed list. */
  lemma RouteIfStep(code: string, prefix: string, cap: string, ops: seq<Op>, perms: map<string, string>, op: Op)
    requires code == prefix + RouteLines(cap, ops)
    ensures RouteIf(code, cap, perms, op) == prefix + RouteLines(cap, ops + Emit(perms, op))
  {
    if Allowed(perms, GateKey(op)) {
      assert (ops + [op])[..|ops|] == ops;
      AppendAssoc(prefix, RouteLines(cap, ops), RouteLine(cap, op));
    } else {
      assert ops + [] == ops;
    }
  }

  /** A passing test appends exactly the handler of the operation it adds to the exposed list. */
  lemma HandlerIfStep(code: string, prefix: string, cap: string, ops: seq<Op>, perms: map<string, string>, op: Op)
    requires code == prefix + Handlers(cap, ops)
    ensures HandlerIf(code, cap, perms, op) == prefix + Handlers(cap, ops + Emit(perms, op))
  {
    if Allowed(perms, GateKey(op)) {
      assert (ops + [op])[..|ops|] == ops;
      AppendAssoc(prefix, Handlers(cap, ops), Handler(cap, op));
    } else {
      assert ops + [] == ops;
    }
  }

  /** The five route tests in their fixed order append one route per exposed operation. */
  lemma RouteTests(code: string, cap: string, perms: map<string, string>)
    ensures RouteIf(RouteIf(RouteIf(RouteIf(RouteIf(code, cap, perms, Index), cap, perms, Store), cap, perms, Show), cap, perms, Update), cap, perms, Destroy)
            == code + RouteLines(cap, EmittedOps(perms))
  {
    var c0 := code;
    assert c0 == code + RouteLines(cap, []);
    RouteIfStep(c0, code, cap, [], perms, Index);
    var o1 := [] + Emit(perms, Index);
    assert o1 == Emit(perms, Index);
    var c1 := RouteIf(c0, cap, perms, Index);
    RouteIfStep(c1, code, cap, o1, perms, Store);
    var c2 := RouteIf(c1, cap, perms, Store);
    RouteIfStep(c2, code, cap, o1 + Emit(perms, Store), perms, Show);
    var c3 := RouteIf(c2, cap, perms, Show);
    RouteIfStep(c3, code, cap, o1 + Emit(perms, Store) + Emit(perms, Show), perms, Update);
    var c4 := RouteIf(c3, cap, perms, Update);
    RouteIfStep(c4, code, cap, o1 + Emit(perms, Store) + Emit(perms, Show) + Emit(perms, Update), perms, Destroy);
  }

  /** The five handler tests in their fixed order append one handler per exposed operation. */
  lemma HandlerTests(code: string, cap: string, perms: map<string, string>)
    ensures HandlerIf(HandlerIf(HandlerIf(HandlerIf(HandlerIf(code, cap, perms, Index), cap, perms, Store), cap, perms, Show), cap, perms, Update), cap, perms, Destroy)
            == code + Handlers(cap, EmittedOps(perms))
  {
    var c0 := code;
    assert c0 == code + Handlers(cap, []);
    HandlerIfStep(c0, code, cap, [], perms, Index);
    var o1 := [] + Emit(perms, Index);
    assert o1 == Emit(perms, Index);
    var c1 := HandlerIf(c0, cap, perms, Index);
    HandlerIfStep(c1, code, cap, o1, perms, Store);
    var c2 := HandlerIf(c1, cap, perms, Store);
    HandlerIfStep(c2, code, cap, o1 + Emit(perms, Store), perms, Show);
    var c3 := HandlerIf(c2, cap, perms, Show);
    HandlerIfStep(c3, code, cap, o1 + Emit(perms, Store) + Emit(perms, Show), perms, Update);
    var c4 := HandlerIf(c3, cap, perms, Update);
    HandlerIfStep(c4, code, cap, o1 + Emit(perms, Store) + Emit(perms, Show) + Emit(perms, Update), perms, Destroy);
  }

  /** The five permission-gated route statements of one resource, appended to the route text. */
  method EmitRoutes(code: string, cap: string, permissions: map<string, string>) returns (out: string)
    ensures out == code + RouteLines(cap, EmittedOps(permissions))
  {
    out := code;
    if Allowed(permissions, "READ") {
      out := out + RouteLine(cap, Index);
    }
    assert out == RouteIf(code, cap, permissions, Index);
    ghost var last := out;
    if Allowed(permissions, "CREATE") {
      out := out + RouteLine(cap, Store);
    }
    assert out == RouteIf(last, cap, permissions, Store);
    last := out;
    if Allowed(permissions, "READ") {
      out := out + RouteLine(cap, Show);
    }
    assert out == RouteIf(last, cap, permissions, Show);
    last := out;
    if Allowed(permissions, "UPDATE") {
      out := out + RouteLine(cap, Update);
    }
    assert out == RouteIf(last, cap, permissions, Update);
    last := out;
    if Allowed(permissions, "DELETE") {
      out := out + RouteLine(cap, Destroy);
    }
    assert out == RouteIf(last, cap, permissions, Destroy);
    RouteTests(code, cap, permissions);
  }

  /** The route statements of one iteration of the first loop, appended to `route_code`. */
  method EmitRouteGroup(routeCode: string, name: string, r: Resource) returns (out: string)
    ensures out == routeCode + RouteBlock(name, r)
  {
    out := routeCode + GroupOpen(r.uri);
    out := EmitRoutes(out, Capitalize(name), r.permissions);
    out := out + GroupClose;
    AppendAssoc(routeCode, GroupOpen(r.uri), RouteLines(Capitalize(name), EmittedOps(r.permissions)));
    AppendAssoc(routeCode, GroupOpen(r.uri) + RouteLines(Capitalize(name), EmittedOps(r.permissions)), GroupClose);
  }

  /** The five permission-gated handlers of one controller, appended to its text. */
  method EmitHandlers(code: string, cap: string, permissions: map<string, string>) returns (out: string)
    ensures out == code + Handlers(cap, EmittedOps(permissions))
  {
    out := code;
    if Allowed(permissions, "READ") {
      out := out + Handler(cap, Index);
    }
    assert out == HandlerIf(code, cap, permissions, Index);
    ghost var last := out;
    if Allowed(permissions, "CREATE") {
      out := out + Handler(cap, Store);
    }
    assert out == HandlerIf(last, cap, permissions, Store);
    last := out;
    if Allowed(permissions, "READ") {
      out := out + Handler(cap, Show);
    }
    assert out == HandlerIf(last, cap, permissions, Show);
    last := out;
    if Allowed(permissions, "UPDATE") {
      out := out + Handler(cap, Update);
    }
    assert out == HandlerIf(last, cap, permissions, Update);
    last := out;
    if Allowed(permissions, "DELETE") {
      out := out + Handler(cap, Destroy);
    }
    assert out == HandlerIf(last, cap, permissions, Destroy);
    HandlerTests(code, cap, permissions);
  }

  /** The controller statements of one iteration of the first loop: the text of `controller_code[name]`. */
  method EmitController(name: string, r: Resource) returns (controller: string)
    ensures controller == ControllerText(name, r)
  {
    controller := ControllerHeader(Capitalize(name));
    controller := EmitHandlers(controller, Capitalize(name), r.permissions);
    controller := controller + ControllerClose;
  }

  /** One more iteration of a `+=` loop. */
  lemma ConcatStep<T>(prefix: string, xs: seq<T>, text: T -> string, i: nat)
    requires i < |xs|
    ensures prefix + Concat(xs[..i + 1], text) == prefix + Concat(xs[..i], text) + text(xs[i])
  {
    assert xs[..i + 1][..i] == xs[..i];
    AppendAssoc(prefix, Concat(xs[..i], text), text(xs[i]));
  }

  lemma ControllersStep(d: Dict<Resource>, i: nat)
    requires i < |d|
    ensures Controllers(d[..i + 1]) == Put(Controllers(d[..i]), d[i].key, ControllerText(d[i].key, d[i].value))
  {
    assert d[..i + 1][..i] == d[..i];
  }

  /** The second loop of `generate_lumen_code`: one model class per resource, in dict order. */
  method EmitModels(resources: Dict<Resource>) returns (modelCode: string)
    ensures modelCode == PhpOpen + Concat(resources, ModelClassOf)
  {
    modelCode := PhpOpen;
    for i := 0 to |resources|
      invariant modelCode == PhpOpen + Concat(resources[..i], ModelClassOf)
    {
      var name := resources[i].key;
      ConcatStep(PhpOpen, resources, ModelClassOf, i);
      modelCode := modelCode + ModelClass(Capitalize(name), resources[i].value.table);
    }
    assert resources[..|resources|] == resources;
  }

  /** `generate_lumen_code`, over a dict: no resource name occurs twice. */
  method GenerateLumenCode(resources: Dict<Resource>)
    returns (routeCode: string, controllerCode: Dict<string>, modelCode: string)
    requires DistinctKeys(resources)
    ensures routeCode == RouteTable(resources)
    ensures controllerCode == Controllers(resources)
    ensures modelCode == ModelText(resources)
  {
    routeCode := PhpOpen;
    controllerCode := [];

    for i := 0 to |resources|
      invariant routeCode == PhpOpen + Concat(resources[..i], RouteBlockOf)
      invariant controllerCode == Controllers(resources[..i])
    {
      var name := resources[i].key;
      ConcatStep(PhpOpen, resources, RouteBlockOf, i);
      ControllersStep(resources, i);
      routeCode := EmitRouteGroup(routeCode, name, resources[i].value);
      var controller := EmitController(name, resources[i].value);
      controllerCode := Put(controllerCode, name, controller);
    }
    assert resources[..|resources|] == resources;

    modelCode := EmitModels(resources);
    routeCode := routeCode + PhpClose;
    modelCode := modelCode + PhpClose;
  }

  // ---------------------------------------------------------------- properties

  /** Filtering one more operation appends its own test's outcome. */
  lemma FilterSnoc(perms: map<string, string>, ops: seq<Op>, op: Op)
    ensures Filter(perms, ops + [op]) == Filter(perms, ops) + Emit(perms, op)
  {
    assert (ops + [op])[..|ops|] == ops;
  }

  /**
   * The canonical order, built one operation at a time: built-in facts about sequence
   * displays, stated so the proofs below can cite them.
   */
  lemma CanonicalOrderSnoc()
    ensures [] + [Index] == [Index]
    ensures [Index] + [Store] == [Index, Store]
    ensures [Index, Store] + [Show] == [Index, Store, Show]
    ensures [Index, Store, Show] + [Update] == [Index, Store, Show, Update]
    ensures [Index, Store, Show, Update] + [Destroy] == CanonicalOrder
  {
  }

  /** The five written-out tests are the canonical operations filtered by their permission. */
  lemma EmittedOpsIsFilter(perms: map<string, string>)
    ensures EmittedOps(perms) == Filter(perms, CanonicalOrder)
  {
    CanonicalOrderSnoc();
    FilterSnoc(perms, [], Index);
    FilterSnoc(perms, [Index], Store);
    FilterSnoc(perms, [Index, Store], Show);
    FilterSnoc(perms, [Index, Store, Show], Update);
    FilterSnoc(perms, [Index, Store, Show, Update], Destroy);
  }

  /** An operation survives the filter exactly when it is listed and its test passes. */
  lemma {:induction false} FilterMembers(perms: map<string, string>, ops: seq<Op>, op: Op)
    ensures op in Filter(perms, ops) <==> op in ops && Allowed(perms, GateKey(op))
  {
    if ops != [] {
      var init := ops[..|ops| - 1];
      FilterMembers(perms, init, op);
      assert ops == init + [ops[|ops| - 1]];
    }
  }

  /** Operations listed with strictly increasing rank. */
  predicate StrictlyRanked(ops: seq<Op>) {
    forall i, j :: 0 <= i < j < |ops| ==> Rank(ops[i]) < Rank(ops[j])
  }

  /** Filtering keeps the listed order. */
  lemma {:induction false} FilterRanked(perms: map<string, string>, ops: seq<Op>)
    requires StrictlyRanked(ops)
    ensures StrictlyRanked(Filter(perms, ops))
  {
    if ops != [] {
      var init, last := ops[..|ops| - 1], ops[|ops| - 1];
      FilterRanked(perms, init);
      var f := Filter(perms, init);
      forall x | x in f ensures Rank(x) < Rank(last) {
        FilterMembers(perms, init, x);
        var i :| 0 <= i < |init| && init[i] == x;
      }
      var r := Filter(perms, ops);
      assert r == f + Emit(perms, last);
      forall i, j | 0 <= i < j < |r| ensures Rank(r[i]) < Rank(r[j]) {
        if j >= |f| {
          assert r[j] == last;
          assert r[i] in f;
        }
      }
    }
  }

  /** An operation is routed and handled exactly when its permission test passes. */
  lemma EmittedOpsMembers(perms: map<string, string>, op: Op)
    ensures op in EmittedOps(perms) <==> Allowed(perms, GateKey(op))
  {
    EmittedOpsIsFilter(perms);
    FilterMembers(perms, CanonicalOrder, op);
    assert op in CanonicalOrder by {
      match op
      case Index => assert CanonicalOrder[0] == Index;
      case Store => assert CanonicalOrder[1] == Store;
      case Show => assert CanonicalOrder[2] == Show;
      case Update => assert CanonicalOrder[3] == Update;
      case Destroy => assert CanonicalOrder[4] == Destroy;
    }
  }

  /** Routes and handlers come in the fixed order index, store, show, update, destroy, each at most once. */
  lemma EmittedOpsRanked(perms: map<string, string>)
    ensures StrictlyRanked(EmittedOps(perms))
  {
    EmittedOpsIsFilter(perms);
    FilterRanked(perms, CanonicalOrder);
  }

  /** `READ` gates both the index and the show operation: they come and go together. */
  lemma ReadGatesIndexAndShow(perms: map<string, string>)
    ensures Index in EmittedOps(perms) <==> Show in EmittedOps(perms)
  {
    EmittedOpsMembers(perms, Index);
    EmittedOpsMembers(perms, Show);
  }

  /** With no empty flag among the permissions, every operation is exposed: absent keys allow. */
  lemma AllowedByDefault(perms: map<string, string>)
    requires forall k :: k in perms ==> perms[k] != ""
    ensures EmittedOps(perms) == CanonicalOrder
  {
    CanonicalOrderSnoc();
  }

  /**
   * The flag is tested for truthiness, not compared with a literal: `DELETE=False` yields the
   * non-empty string `"False"`, which allows, so the destroy route is still emitted.
   */
  lemma FalseFlagStillAllows()
    ensures Destroy in EmittedOps(map["DELETE" := "False"])
  {
    EmittedOpsMembers(map["DELETE" := "False"], Destroy);
  }

  /** Only an empty flag (`DELETE=` in the source text) withholds an operation. */
  lemma EmptyFlagDenies(perms: map<string, string>, op: Op)
    requires GateKey(op) in perms && perms[GateKey(op)] == ""
    ensures op !in EmittedOps(perms)
  {
    EmittedOpsMembers(perms, op);
  }

  function Flag(perms: map<string, string>, key: string): nat {
    if Allowed(perms, key) then 1 else 0
  }

  /** A resource gets `2·[READ] + [CREATE] + [UPDATE] + [DELETE]` routes, and as many handlers. */
  lemma EmittedOpsCount(perms: map<string, string>)
    ensures |EmittedOps(perms)|
            == 2 * Flag(perms, "READ") + Flag(perms, "CREATE") + Flag(perms, "UPDATE") + Flag(perms, "DELETE")
  {
  }

  // ---------------------------------------------------------------- whole outputs

  /** With no resources, the route and model files hold only the PHP tags and no controller is made. */
  lemma NoResources()
    ensures RouteTable([]) == "<?php\n\n?>"
    ensures Controllers([]) == []
    ensures ModelText([]) == "<?php\n\n?>"
  {
    assert PhpOpen + "" == PhpOpen;
  }

  /** The texts of consecutive runs follow one another. */
  lemma {:induction false} ConcatAppend<T>(xs: seq<T>, ys: seq<T>, text: T -> string)
    ensures Concat(xs + ys, text) == Concat(xs, text) + Concat(ys, text)
  {
    if ys == [] {
      assert xs + ys == xs;
    } else {
      var init := ys[..|ys| - 1];
      ConcatAppend(xs, init, text);
      assert (xs + ys)[..|xs + ys| - 1] == xs + init;
      AppendAssoc(Concat(xs, text), Concat(init, text), text(ys[|ys| - 1]));
    }
  }

  /** The text of every element sits between those of the elements before and after it. */
  lemma ConcatAt<T>(xs: seq<T>, text: T -> string, i: nat)
    requires i < |xs|
    ensures Concat(xs, text) == Concat(xs[..i], text) + text(xs[i]) + Concat(xs[i + 1..], text)
  {
    var before, after := xs[..i], xs[i + 1..];
    assert xs == (before + [xs[i]]) + after;
    ConcatAppend(before + [xs[i]], after, text);
    ConcatSnoc(before, xs[i], text);
  }

  lemma ConcatSnoc<T>(xs: seq<T>, x: T, text: T -> string)
    ensures Concat(xs + [x], text) == Concat(xs, text) + text(x)
  {
    assert (xs + [x])[..|xs|] == xs;
  }

  /** Every resource has its route group in the route file, after those of the resources before it. */
  lemma RouteGroupAt(d: Dict<Resource>, i: nat)
    requires i < |d|
    ensures RouteTable(d)
            == PhpOpen + (Concat(d[..i], RouteBlockOf) + RouteBlockOf(d[i]) + Concat(d[i + 1..], RouteBlockOf)) + PhpClose
  {
    ConcatAt(d, RouteBlockOf, i);
  }

  /**
   * Every resource has its class in the one model file, after those of the resources before it:
   * the text accumulates over the whole loop and no class replaces another.
   */
  lemma ModelClassAt(d: Dict<Resource>, i: nat)
    requires i < |d|
    ensures ModelText(d)
            == PhpOpen + (Concat(d[..i], ModelClassOf) + ModelClassOf(d[i]) + Concat(d[i + 1..], ModelClassOf)) + PhpClose
  {
    ConcatAt(d, ModelClassOf, i);
  }

  /** The controller dict has one entry per resource, in the resource dict's order. */
  lemma ControllerKeys(d: Dict<Resource>)
    requires DistinctKeys(d)
    ensures Keys(Controllers(d)) == Keys(d)
  {
    AssignKeys(d, ControllerOf);
  }

  /** Each resource's controller is the text generated from its own definition. */
  lemma ControllerAt(d: Dict<Resource>, i: nat)
    requires DistinctKeys(d) && i < |d|
    ensures Get(Controllers(d), d[i].key) == Some(ControllerText(d[i].key, d[i].value))
  {
    AssignGet(d, ControllerOf, i);
  }

  /**
   * From declarations to controllers: the controller dict has one entry per declared
   * resource name, in order of first declaration.
   */
  lemma ControllersFollowDeclarations(ms: seq<ResourceCapture>)
    requires BuildResources(ms).Success?
    ensures Keys(Controllers(BuildResources(ms).value)) == Dedup(Names(ms))
  {
    ResourceKeyOrder(ms);
    ControllerKeys(BuildResources(ms).value);
  }
}
