/**
 * The nested-dictionary helpers of the dictionary guide: the deep merge of
 * two configurations (`merge_config`), lookup along a path of keys
 * (`safe_get`), the low-stock report over a two-level inventory
 * (`get_low_stock_items`) and keyword defaults (`create_user`).
 *
 * A Python value is a tagged `Value`, so "is a dict" is decidable; a dict is
 * a finite map from string keys (the key order Python keeps is not modelled
 * here).
 */
module NestedDicts {
  import opened Common

  datatype Value =
    | Str(s: string)
    | Int(i: int)
    | Real(r: real)
    | Bool(b: bool)
    | NoneValue
    | Dict(m: map<string, Value>)

  // ---------------------------------------------------------------------------
  // merge_config(default, user)

  /** Whether the merge descends into key `k`: both sides hold a dict there. */
  predicate BothDicts(default: map<string, Value>, user: map<string, Value>, k: string) {
    k in default && k in user && default[k].Dict? && user[k].Dict?
  }

  /**
   * The deep merge of `user` over `default`: every key of either side, the
   * user's value wherever the two are not both dicts, and the recursive merge
   * where they are.
   */
  function Merged(default: map<string, Value>, user: map<string, Value>): (r: map<string, Value>)
    ensures r.Keys == default.Keys + user.Keys
    ensures forall k :: k in user && !BothDicts(default, user, k) ==> r[k] == user[k]
    ensures forall k :: k in default && k !in user ==> r[k] == default[k]
    ensures forall k :: BothDicts(default, user, k) ==>
      r[k].Dict? && r[k].m.Keys == default[k].m.Keys + user[k].m.Keys
    decreases Dict(user)
  {
    map k | k in default.Keys + user.Keys ::
      if BothDicts(default, user, k) then Dict(Merged(default[k].m, user[k].m))
      else if k in user then user[k]
      else default[k]
  }

  /**
   * `merge_config`: start from a copy of `default`, then assign every user
   * key in turn, merging recursively where both values are dicts.
   */
  method MergeConfig(default: map<string, Value>, user: map<string, Value>) returns (result: map<string, Value>)
    ensures result == Merged(default, user)
    decreases Dict(user)
  {
    result := default;
    var todo := user.Keys;
    while todo != {}
      invariant todo <= user.Keys
      invariant forall k :: k in result <==> k in default || (k in user && k !in todo)
      invariant forall k :: k in result ==>
        result[k] == if k in user && k !in todo then Merged(default, user)[k] else default[k]
      decreases todo
    {
      var key :| key in todo;
      var value := user[key];
      if key in result && result[key].Dict? && value.Dict? {
        var sub := MergeConfig(result[key].m, value.m);
        result := result[key := Dict(sub)];
      } else {
        result := result[key := value];
      }
      todo := todo - {key};
    }
  }

  /** Merging a configuration into itself changes nothing. */
  lemma {:induction false} MergeSelf(config: map<string, Value>)
    ensures Merged(config, config) == config
    decreases Dict(config)
  {
    forall k | BothDicts(config, config, k)
      ensures Merged(config, config)[k] == config[k]
    {
      MergeSelf(config[k].m);
    }
  }

  // ---------------------------------------------------------------------------
  // safe_get(d, *keys, default=None)

  /** The value reached from `d` by following `keys`, or `None` as soon as the path breaks. */
  function Follow(d: Value, keys: seq<string>): (r: Option<Value>)
    ensures keys != [] && !(d.Dict? && keys[0] in d.m) ==> r == None
  {
    if keys == [] then Some(d)
    else if d.Dict? && keys[0] in d.m then Follow(d.m[keys[0]], keys[1..])
    else None
  }

  /** Following a path in two legs is following the first leg, then the second from where it ends. */
  lemma {:induction false} FollowAppend(d: Value, front: seq<string>, back: seq<string>)
    ensures Follow(d, front + back) == match Follow(d, front) {
      case None => None
      case Some(v) => Follow(v, back)
    }
  {
    if front == [] {
      assert front + back == back;
    } else {
      assert (front + back)[0] == front[0];
      assert (front + back)[1..] == front[1..] + back;
      if d.Dict? && front[0] in d.m {
        FollowAppend(d.m[front[0]], front[1..], back);
      }
    }
  }

  /**
   * `safe_get`: walk the keys while the current value is a dict holding the
   * next key; return `default` the moment it is not, the value reached otherwise.
   */
  method SafeGet(d: Value, keys: seq<string>, default: Value) returns (r: Value)
    ensures Follow(d, keys).Some? ==> r == Follow(d, keys).value
    ensures Follow(d, keys).None? ==> r == default
    ensures keys == [] ==> r == d
  {
    var cur := d;
    for i := 0 to |keys|
      invariant Follow(d, keys) == Follow(cur, keys[i..])
    {
      var key := keys[i];
      if cur.Dict? && key in cur.m {
        cur := cur.m[key];
      } else {
        return default;
      }
    }
    return cur;
  }

  // ---------------------------------------------------------------------------
  // Deep merge seen along paths

  /**
   * The path leaves `user`: it runs through dicts of `user` until a key that
   * is not there.
   */
  predicate Missing(user: map<string, Value>, path: seq<string>)
    decreases |path|
  {
    path != [] &&
    (path[0] !in user || (user[path[0]].Dict? && Missing(user[path[0]].m, path[1..])))
  }

  /** Whatever the user's configuration reaches along a path that ends at a non-dict, the merge reaches too. */
  lemma {:induction false} MergeKeepsUserLeaf(default: map<string, Value>, user: map<string, Value>, path: seq<string>)
    requires Follow(Dict(user), path).Some? && !Follow(Dict(user), path).value.Dict?
    ensures Follow(Dict(Merged(default, user)), path) == Follow(Dict(user), path)
    decreases |path|
  {
    var k := path[0];
    var r := Merged(default, user);
    if BothDicts(default, user, k) {
      assert path[1..] != [];
      MergeKeepsUserLeaf(default[k].m, user[k].m, path[1..]);
      assert r[k] == Dict(Merged(default[k].m, user[k].m));
    } else {
      assert r[k] == user[k];
    }
  }

  /**
   * Whatever the default configuration holds below a key the user leaves out
   * survives the merge: `database.name` keeps its default while `host` and
   * `port` are overridden.
   */
  lemma {:induction false} MergeKeepsDefault(default: map<string, Value>, user: map<string, Value>, path: seq<string>)
    requires Missing(user, path)
    requires Follow(Dict(default), path).Some?
    ensures Follow(Dict(Merged(default, user)), path) == Follow(Dict(default), path)
    decreases |path|
  {
    var k := path[0];
    var r := Merged(default, user);
    if k in user {
      assert BothDicts(default, user, k);
      MergeKeepsDefault(default[k].m, user[k].m, path[1..]);
      assert r[k] == Dict(Merged(default[k].m, user[k].m));
    } else {
      assert r[k] == default[k];
    }
  }

  // ---------------------------------------------------------------------------
  // get_low_stock_items(inventory, threshold=10)

  const DefaultThreshold := 10

  /** A stock figure `<` can compare with an `int` threshold (`bool` compares as 0 or 1). */
  predicate IsNumber(v: Value) {
    v.Int? || v.Real? || v.Bool?
  }

  /** `stock < threshold` for a numeric stock figure. */
  predicate Below(stock: Value, threshold: int)
    requires IsNumber(stock)
  {
    match stock
    case Int(n) => n < threshold
    case Real(x) => x < threshold as real
    case Bool(b) => (if b then 1 else 0) < threshold
  }

  /** An item's details: a dict with a numeric `"stock"` entry. */
  predicate ItemOk(details: Value) {
    details.Dict? && "stock" in details.m && IsNumber(details.m["stock"])
  }

  /** A category: a dict of well-formed items. */
  predicate CategoryOk(items: Value) {
    items.Dict? && forall i :: i in items.m ==> ItemOk(items.m[i])
  }

  predicate InventoryOk(inventory: map<string, Value>) {
    forall c :: c in inventory ==> CategoryOk(inventory[c])
  }

  /** Item `i` of category `c` exists, is well formed and its stock is below `threshold`. */
  predicate IsLow(inventory: map<string, Value>, c: string, i: string, threshold: int) {
    c in inventory && inventory[c].Dict? && i in inventory[c].m &&
    ItemOk(inventory[c].m[i]) && Below(inventory[c].m[i].m["stock"], threshold)
  }

  /** The report key `f"{category}/{item}"`. */
  function ItemKey(c: string, i: string): (k: string)
    ensures |k| == |c| + 1 + |i| && k[|c|] == '/'
  {
    c + "/" + i
  }

  /** The exception the walk raises: `AttributeError`, `TypeError` or `KeyError`, with where it happened. */
  datatype InventoryError =
    | CategoryNotDict(category: string)
    | ItemNotDict(category: string, item: string)
    | NoStock(category: string, item: string)
    | StockNotNumber(category: string, item: string)

  /** The error names a place in the inventory where the walk really fails. */
  predicate Describes(inventory: map<string, Value>, e: InventoryError) {
    match e
    case CategoryNotDict(c) => c in inventory && !inventory[c].Dict?
    case ItemNotDict(c, i) =>
      c in inventory && inventory[c].Dict? && i in inventory[c].m && !inventory[c].m[i].Dict?
    case NoStock(c, i) =>
      c in inventory && inventory[c].Dict? && i in inventory[c].m && inventory[c].m[i].Dict? &&
      "stock" !in inventory[c].m[i].m
    case StockNotNumber(c, i) =>
      c in inventory && inventory[c].Dict? && i in inventory[c].m && inventory[c].m[i].Dict? &&
      "stock" in inventory[c].m[i].m && !IsNumber(inventory[c].m[i].m["stock"])
  }

  /** Every entry of the report is the stock of some low item, filed under that item's key. */
  ghost predicate Sound(inventory: map<string, Value>, threshold: int, low: map<string, Value>) {
    forall k :: k in low ==>
      exists c, i :: IsLow(inventory, c, i, threshold) && k == ItemKey(c, i) && low[k] == inventory[c].m[i].m["stock"]
  }

  /**
   * `get_low_stock_items`: walk every category and every item, and file each
   * stock figure below `threshold` under `"category/item"`. A category that is
   * not a dict, an item that is not a dict, a missing `"stock"` or a stock
   * that cannot be compared with a number raises.
   */
  method LowStockItems(inventory: map<string, Value>, threshold: int)
    returns (r: Result<map<string, Value>, InventoryError>)
    ensures r.Success? <==> InventoryOk(inventory)
    ensures r.Failure? ==> Describes(inventory, r.error)
    ensures r.Success? ==> Sound(inventory, threshold, r.value)
    ensures r.Success? ==>
      forall c, i :: IsLow(inventory, c, i, threshold) ==> ItemKey(c, i) in r.value
    ensures r.Success? && (forall c :: c in inventory ==> '/' !in c) ==>
      forall c, i :: IsLow(inventory, c, i, threshold) ==> r.value[ItemKey(c, i)] == inventory[c].m[i].m["stock"]
  {
    var low := map[];
    var cats := inventory.Keys;
    while cats != {}
      invariant cats <= inventory.Keys
      invariant forall c :: c in inventory && c !in cats ==> CategoryOk(inventory[c])
      invariant Sound(inventory, threshold, low)
      invariant forall c, i :: c !in cats && IsLow(inventory, c, i, threshold) ==> ItemKey(c, i) in low
      decreases cats
    {
      var c :| c in cats;
      var items := inventory[c];
      if !items.Dict? {
        return Failure(CategoryNotDict(c));
      }
      var names := items.m.Keys;
      while names != {}
        invariant names <= items.m.Keys
        invariant forall i :: i in items.m && i !in names ==> ItemOk(items.m[i])
        invariant Sound(inventory, threshold, low)
        invariant forall c', i :: c' !in cats && IsLow(inventory, c', i, threshold) ==> ItemKey(c', i) in low
        invariant forall i :: i !in names && IsLow(inventory, c, i, threshold) ==> ItemKey(c, i) in low
        decreases names
      {
        var i :| i in names;
        var details := items.m[i];
        if !details.Dict? {
          return Failure(ItemNotDict(c, i));
        }
        if "stock" !in details.m {
          return Failure(NoStock(c, i));
        }
        var stock := details.m["stock"];
        if !IsNumber(stock) {
          return Failure(StockNotNumber(c, i));
        }
        if Below(stock, threshold) {
          low := low[ItemKey(c, i) := stock];
        }
        names := names - {i};
      }
      cats := cats - {c};
    }
    if forall c :: c in inventory ==> '/' !in c {
      forall c, i | IsLow(inventory, c, i, threshold)
        ensures low[ItemKey(c, i)] == inventory[c].m[i].m["stock"]
      {
        SoundExact(inventory, threshold, low, c, i);
      }
    }
    return Success(low);
  }

  /** With no `/` in category names, distinct items get distinct report keys. */
  lemma ItemKeyInjective(c1: string, i1: string, c2: string, i2: string)
    requires '/' !in c1 && '/' !in c2
    requires ItemKey(c1, i1) == ItemKey(c2, i2)
    ensures c1 == c2 && i1 == i2
  {
    var k := ItemKey(c1, i1);
    assert c1 == k[..|c1|] == c2;
    assert i1 == k[|c1| + 1..] == i2;
  }

  /**
   * When no category name holds a `/`, a sound report files every low item
   * under its own key with exactly its stock figure.
   */
  lemma SoundExact(inventory: map<string, Value>, threshold: int, low: map<string, Value>, c: string, i: string)
    requires forall c' :: c' in inventory ==> '/' !in c'
    requires Sound(inventory, threshold, low)
    requires IsLow(inventory, c, i, threshold) && ItemKey(c, i) in low
    ensures low[ItemKey(c, i)] == inventory[c].m[i].m["stock"]
  {
    var k := ItemKey(c, i);
    var c', i' :| IsLow(inventory, c', i', threshold) && k == ItemKey(c', i') && low[k] == inventory[c'].m[i'].m["stock"];
    ItemKeyInjective(c, i, c', i');
  }

  // ---------------------------------------------------------------------------
  // create_user(**kwargs)

  function UserDefaults(): map<string, Value> {
    map["active" := Bool(true), "role" := Str("user")]
  }

  /** `{**defaults, **kwargs}`: every default and every keyword, a keyword winning over a default. */
  function CreateUser(kwargs: map<string, Value>): (user: map<string, Value>)
    ensures user.Keys == UserDefaults().Keys + kwargs.Keys
    ensures forall k :: k in kwargs ==> user[k] == kwargs[k]
    ensures forall k :: k in UserDefaults() && k !in kwargs ==> user[k] == UserDefaults()[k]
  {
    UserDefaults() + kwargs
  }

  /** With no dict among the defaults, the shallow unpacking merge agrees with the deep merge. */
  lemma CreateUserIsMerge(kwargs: map<string, Value>)
    ensures CreateUser(kwargs) == Merged(UserDefaults(), kwargs)
  {
    var a, b := CreateUser(kwargs), Merged(UserDefaults(), kwargs);
    forall k | k in a ensures a[k] == b[k] {
      assert !BothDicts(UserDefaults(), kwargs, k);
    }
  }

  // ---------------------------------------------------------------------------
  // The guide's own data

  function DefaultDatabase(): map<string, Value> {
    map["host" := Str("localhost"), "port" := Int(5432), "name" := Str("myapp")]
  }

  function DefaultLogging(): map<string, Value> {
    map["level" := Str("INFO"), "file" := Str("app.log")]
  }

  function DefaultConfig(): map<string, Value> {
    map[
      "database" := Dict(DefaultDatabase()),
      "cache" := Dict(map["type" := Str("redis"), "ttl" := Int(3600)]),
      "logging" := Dict(DefaultLogging())
    ]
  }

  function UserDatabase(): map<string, Value> {
    map["host" := Str("prod-server.com"), "port" := Int(5433)]
  }

  function UserLogging(): map<string, Value> {
    map["level" := Str("DEBUG")]
  }

  function UserConfig(): map<string, Value> {
    map["database" := Dict(UserDatabase()), "logging" := Dict(UserLogging())]
  }

  /** A two-key path is two lookups. */
  lemma FollowPair(d: map<string, Value>, a: string, b: string)
    ensures Follow(Dict(d), [a, b])
         == if a in d && d[a].Dict? && b in d[a].m then Some(d[a].m[b]) else None
  {
    assert [a, b][0] == a && [a, b][1..] == [b];
    if a in d && d[a].Dict? {
      assert Follow(Dict(d), [a, b]) == Follow(d[a], [b]);
      if b in d[a].m {
        assert Follow(d[a], [b]) == Follow(d[a].m[b], []);
      }
    }
  }

  /** The user's host and port win over the defaults. */
  lemma ConfigDatabaseUser()
    ensures Follow(Dict(Merged(DefaultConfig(), UserConfig())), ["database", "host"]) == Some(Str("prod-server.com"))
    ensures Follow(Dict(Merged(DefaultConfig(), UserConfig())), ["database", "port"]) == Some(Int(5433))
  {
    var d, u := DefaultConfig(), UserConfig();
    assert u["database"] == Dict(UserDatabase());
    FollowPair(u, "database", "host");
    FollowPair(u, "database", "port");
    MergeKeepsUserLeaf(d, u, ["database", "host"]);
    MergeKeepsUserLeaf(d, u, ["database", "port"]);
  }

  /** The database name, which the user leaves out, keeps its default. */
  lemma ConfigDatabaseName()
    ensures Follow(Dict(Merged(DefaultConfig(), UserConfig())), ["database", "name"]) == Some(Str("myapp"))
  {
    var d, u := DefaultConfig(), UserConfig();
    assert u["database"] == Dict(UserDatabase());
    assert d["database"] == Dict(DefaultDatabase());
    FollowPair(d, "database", "name");
    assert Missing(u, ["database", "name"]) by {
      assert ["database", "name"][1..] == ["name"];
    }
    MergeKeepsDefault(d, u, ["database", "name"]);
  }

  /** The user's log level wins; the log file keeps its default. */
  lemma ConfigLogging()
    ensures Follow(Dict(Merged(DefaultConfig(), UserConfig())), ["logging", "level"]) == Some(Str("DEBUG"))
    ensures Follow(Dict(Merged(DefaultConfig(), UserConfig())), ["logging", "file"]) == Some(Str("app.log"))
  {
    var d, u := DefaultConfig(), UserConfig();
    assert u["logging"] == Dict(UserLogging());
    assert d["logging"] == Dict(DefaultLogging());
    FollowPair(u, "logging", "level");
    FollowPair(d, "logging", "file");
    MergeKeepsUserLeaf(d, u, ["logging", "level"]);
    assert Missing(u, ["logging", "file"]) by {
      assert ["logging", "file"][1..] == ["file"];
    }
    MergeKeepsDefault(d, u, ["logging", "file"]);
  }

  /** The cache section, absent from the user's configuration, is kept whole. */
  lemma ConfigCache()
    ensures Follow(Dict(Merged(DefaultConfig(), UserConfig())), ["cache"]) == Follow(Dict(DefaultConfig()), ["cache"])
  {
    MergeKeepsDefault(DefaultConfig(), UserConfig(), ["cache"]);
  }

  function Engineering(): map<string, Value> {
    map[
      "alice" := Dict(map["position" := Str("Senior Developer"), "salary" := Int(95000)]),
      "bob" := Dict(map["position" := Str("DevOps Engineer"), "salary" := Int(85000)])
    ]
  }

  function Marketing(): map<string, Value> {
    map[
      "charlie" := Dict(map["position" := Str("Marketing Manager"), "salary" := Int(75000)]),
      "diana" := Dict(map["position" := Str("Content Creator"), "salary" := Int(55000)])
    ]
  }

  function Company(): Value {
    Dict(map[
      "name" := Str("TechCorp"),
      "founded" := Int(2010),
      "employees" := Dict(map["engineering" := Dict(Engineering()), "marketing" := Dict(Marketing())])
    ])
  }

  /** One step of a path: look the first key up, then follow the rest. */
  lemma FollowStep(d: map<string, Value>, k: string, rest: seq<string>)
    ensures Follow(Dict(d), [k] + rest) == if k in d then Follow(d[k], rest) else None
  {
    assert ([k] + rest)[0] == k && ([k] + rest)[1..] == rest;
  }

  /** Alice's salary is reached; the path through the missing finance department breaks. */
  lemma CompanyPaths()
    ensures Follow(Company(), ["employees", "engineering", "alice", "salary"]) == Some(Int(95000))
    ensures Follow(Company(), ["employees", "finance", "eve", "salary"]) == None
  {
    var employees := map["engineering" := Dict(Engineering()), "marketing" := Dict(Marketing())];
    var alice := map["position" := Str("Senior Developer"), "salary" := Int(95000)];
    assert Company().m["employees"] == Dict(employees);
    assert Engineering()["alice"] == Dict(alice);
    FollowStep(Company().m, "employees", ["engineering", "alice", "salary"]);
    FollowStep(employees, "engineering", ["alice", "salary"]);
    FollowPair(Engineering(), "alice", "salary");
    FollowStep(Company().m, "employees", ["finance", "eve", "salary"]);
    FollowStep(employees, "finance", ["eve", "salary"]);
  }

  /** The guide's two calls: Alice's salary, and `"N/A"` for the unknown employee. */
  method SafeGetExample() returns (salary: Value, missing: Value)
    ensures salary == Int(95000)
    ensures missing == Str("N/A")
  {
    CompanyPaths();
    salary := SafeGet(Company(), ["employees", "engineering", "alice", "salary"], NoneValue);
    missing := SafeGet(Company(), ["employees", "finance", "eve", "salary"], Str("N/A"));
  }

  function Electronics(): map<string, Value> {
    map[
      "laptop" := Dict(map["price" := Real(999.99), "stock" := Int(5), "supplier" := Str("TechCorp")]),
      "mouse" := Dict(map["price" := Real(29.99), "stock" := Int(25), "supplier" := Str("AccessoryCo")])
    ]
  }

  function Books(): map<string, Value> {
    map[
      "python_guide" := Dict(map["price" := Real(39.99), "stock" := Int(15), "supplier" := Str("BookHouse")]),
      "data_science" := Dict(map["price" := Real(49.99), "stock" := Int(8), "supplier" := Str("EduPress")])
    ]
  }

  function Inventory(): map<string, Value> {
    map["electronics" := Dict(Electronics()), "books" := Dict(Books())]
  }

  lemma InventoryWellFormed()
    ensures InventoryOk(Inventory())
    ensures forall c :: c in Inventory() ==> '/' !in c
  {
    assert CategoryOk(Dict(Electronics()));
    assert CategoryOk(Dict(Books()));
  }

  /** Below the default threshold of 10 are exactly the laptop (5) and the data-science book (8). */
  lemma InventoryLowItems()
    ensures forall c, i :: IsLow(Inventory(), c, i, DefaultThreshold) <==>
      (c == "electronics" && i == "laptop") || (c == "books" && i == "data_science")
  {
    assert Inventory()["electronics"] == Dict(Electronics());
    assert Inventory()["books"] == Dict(Books());
    assert Electronics()["laptop"].m["stock"] == Int(5);
    assert Electronics()["mouse"].m["stock"] == Int(25);
    assert Books()["python_guide"].m["stock"] == Int(15);
    assert Books()["data_science"].m["stock"] == Int(8);
  }

  /** A sound and complete report on an inventory with exactly two low items holds exactly their two stock figures. */
  lemma ReportOfTwo(inventory: map<string, Value>, threshold: int, low: map<string, Value>,
                    c1: string, i1: string, c2: string, i2: string)
    requires Sound(inventory, threshold, low)
    requires forall c, i :: IsLow(inventory, c, i, threshold) ==> ItemKey(c, i) in low
    requires forall c, i :: IsLow(inventory, c, i, threshold) ==>
      low[ItemKey(c, i)] == inventory[c].m[i].m["stock"]
    requires IsLow(inventory, c1, i1, threshold) && IsLow(inventory, c2, i2, threshold)
    requires forall c, i :: IsLow(inventory, c, i, threshold) ==> (c == c1 && i == i1) || (c == c2 && i == i2)
    ensures low == map[ItemKey(c1, i1) := inventory[c1].m[i1].m["stock"], ItemKey(c2, i2) := inventory[c2].m[i2].m["stock"]]
  {
    forall k | k in low ensures k == ItemKey(c1, i1) || k == ItemKey(c2, i2) {
      var c, i :| IsLow(inventory, c, i, threshold) && k == ItemKey(c, i) && low[k] == inventory[c].m[i].m["stock"];
    }
  }

  lemma InventoryStocks()
    ensures Inventory()["electronics"].m["laptop"].m["stock"] == Int(5)
    ensures Inventory()["books"].m["data_science"].m["stock"] == Int(8)
  {
    assert Inventory()["electronics"].m["laptop"] == Electronics()["laptop"];
    assert Inventory()["books"].m["data_science"] == Books()["data_science"];
  }

  lemma SampleItemKeys()
    ensures ItemKey("electronics", "laptop") == "electronics/laptop"
    ensures ItemKey("books", "data_science") == "books/data_science"
  {
  }

  /** The guide's report: `{"electronics/laptop": 5, "books/data_science": 8}`. */
  method LowStockExample() returns (r: Result<map<string, Value>, InventoryError>)
    ensures r == Success(map["electronics/laptop" := Int(5), "books/data_science" := Int(8)])
  {
    InventoryWellFormed();
    InventoryLowItems();
    r := LowStockItems(Inventory(), DefaultThreshold);
    ReportOfTwo(Inventory(), DefaultThreshold, r.value, "electronics", "laptop", "books", "data_science");
    InventoryStocks();
    SampleItemKeys();
  }

  /** `create_user(name="Alice", email="alice@example.com")` gets the defaults `active` and `role`. */
  lemma CreateUserAlice()
    ensures CreateUser(map["name" := Str("Alice"), "email" := Str("alice@example.com")])
         == map["active" := Bool(true), "role" := Str("user"), "name" := Str("Alice"), "email" := Str("alice@example.com")]
  {
  }

  /** `create_user(name="Bob", role="admin", active=False)` overrides both defaults. */
  lemma CreateUserBob()
    ensures CreateUser(map["name" := Str("Bob"), "role" := Str("admin"), "active" := Bool(false)])
         == map["active" := Bool(false), "role" := Str("admin"), "name" := Str("Bob")]
  {
  }
}
