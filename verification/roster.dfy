/** The asset roster of the asset page: four category lists of products, the
    list operations the page performs on them, the per-category and grand
    totals, and the check that blocks saving while a product has no name. */
module Roster {
  import opened Optional
  import opened Text

  /** The four asset categories, in the order the page lists them. */
  datatype Category = DepositSavings | TrustIsa | Insurance | Pension

  /** One financial product. `amount` may be missing in a stored document;
      the totals then count it as 0. */
  datatype Product = Product(
    id: string,
    name: string,
    maturityDate: Option<string>,
    amount: Option<nat>,
    memo: Option<string>)

  /** The roster: one product list per category. */
  datatype Assets = Assets(
    depositSavings: seq<Product>,
    trustIsa: seq<Product>,
    insurance: seq<Product>,
    pension: seq<Product>)

  /** The roster a page starts from before anything is loaded. */
  const NoAssets := Assets([], [], [], [])

  /** `assets[category]`. */
  function Get(a: Assets, c: Category): seq<Product> {
    match c
    case DepositSavings => a.depositSavings
    case TrustIsa => a.trustIsa
    case Insurance => a.insurance
    case Pension => a.pension
  }

  /** `{ ...assets, [category]: ps }`: replaces one category's list and keeps
      the other three. */
  function Put(a: Assets, c: Category, ps: seq<Product>): (r: Assets)
    ensures Get(r, c) == ps
    ensures forall c' :: c' != c ==> Get(r, c') == Get(a, c')
  {
    match c
    case DepositSavings => a.(depositSavings := ps)
    case TrustIsa => a.(trustIsa := ps)
    case Insurance => a.(insurance := ps)
    case Pension => a.(pension := ps)
  }

  /** Every product of the roster, category by category. */
  function AllProducts(a: Assets): seq<Product> {
    a.depositSavings + a.trustIsa + a.insurance + a.pension
  }

  lemma InAllProducts(a: Assets, p: Product)
    ensures p in AllProducts(a) <==> exists c :: p in Get(a, c)
  {
    if p in AllProducts(a) {
      if p in a.depositSavings { assert p in Get(a, DepositSavings); }
      else if p in a.trustIsa { assert p in Get(a, TrustIsa); }
      else if p in a.insurance { assert p in Get(a, Insurance); }
      else { assert p in Get(a, Pension); }
    }
  }

  // ---------------------------------------------------------------------
  // Totals

  /** `product.amount || 0`. */
  function AmountOrZero(p: Product): (r: nat)
    ensures r == 0 <==> p.amount == None || p.amount == Some(0)
    ensures p.amount.Some? ==> r == p.amount.value
  {
    p.amount.GetOr(0)
  }

  /** The sum of the products' amounts, a missing amount counting as 0. */
  function SumAmounts(ps: seq<Product>): nat {
    if ps == [] then 0 else AmountOrZero(ps[0]) + SumAmounts(ps[1..])
  }

  lemma {:induction false} SumAmountsAppend(xs: seq<Product>, ys: seq<Product>)
    ensures SumAmounts(xs + ys) == SumAmounts(xs) + SumAmounts(ys)
    decreases |xs|
  {
    if xs == [] {
      assert xs + ys == ys;
    } else {
      assert (xs + ys)[1..] == xs[1..] + ys;
      SumAmountsAppend(xs[1..], ys);
    }
  }

  /** `calculateTotal(products)`: the `reduce` from the left, starting at 0. */
  method CalculateTotal(ps: seq<Product>) returns (total: nat)
    ensures total == SumAmounts(ps)
  {
    total := 0;
    var i := 0;
    while i < |ps|
      invariant 0 <= i <= |ps|
      invariant total == SumAmounts(ps[..i])
    {
      assert ps[..i + 1] == ps[..i] + [ps[i]];
      SumAmountsAppend(ps[..i], [ps[i]]);
      total := total + AmountOrZero(ps[i]);
      i := i + 1;
    }
    assert ps[..i] == ps;
  }

  /** `totalAssets`: the four category totals added up. */
  function TotalAssets(a: Assets): (t: nat)
    ensures t == SumAmounts(AllProducts(a))
  {
    SumAmountsAppend(a.depositSavings + a.trustIsa + a.insurance, a.pension);
    SumAmountsAppend(a.depositSavings + a.trustIsa, a.insurance);
    SumAmountsAppend(a.depositSavings, a.trustIsa);
    SumAmounts(a.depositSavings) + SumAmounts(a.trustIsa)
      + SumAmounts(a.insurance) + SumAmounts(a.pension)
  }

  /** The grand total only depends on the category totals: changing one list
      for another with the same total leaves it unchanged. */
  lemma TotalAssetsPut(a: Assets, c: Category, ps: seq<Product>)
    ensures TotalAssets(Put(a, c, ps)) + SumAmounts(Get(a, c)) == TotalAssets(a) + SumAmounts(ps)
  {
  }

  // ---------------------------------------------------------------------
  // Adding

  /** The product `addProduct` creates; the id is supplied by the caller
      (the page derives it from the clock and a random number). */
  function NewProduct(id: string): Product {
    Product(id, "", None, Some(0), Some(""))
  }

  /** `addProduct(category)`: one blank product at the end of the category. */
  function AddProduct(a: Assets, c: Category, id: string): (r: Assets)
    ensures |Get(r, c)| == |Get(a, c)| + 1
    ensures Get(r, c)[..|Get(a, c)|] == Get(a, c)
    ensures var p := Get(r, c)[|Get(a, c)|];
      p.id == id && p.name == "" && p.amount == Some(0) && p.memo == Some("") && p.maturityDate == None
    ensures forall c' :: c' != c ==> Get(r, c') == Get(a, c')
    ensures SumAmounts(Get(r, c)) == SumAmounts(Get(a, c))
    ensures TotalAssets(r) == TotalAssets(a)
  {
    var ps := Get(a, c) + [NewProduct(id)];
    assert ps[..|Get(a, c)|] == Get(a, c);
    SumAmountsAppend(Get(a, c), [NewProduct(id)]);
    TotalAssetsPut(a, c, ps);
    Put(a, c, ps)
  }

  // ---------------------------------------------------------------------
  // Updating

  /** A `Partial<AssetProduct>`: each field present in the patch overwrites
      the product's field. For `maturityDate`, `Some(None)` is a present key
      whose value is `undefined`. */
  datatype Patch = Patch(
    id: Option<string>,
    name: Option<string>,
    maturityDate: Option<Option<string>>,
    amount: Option<nat>,
    memo: Option<string>)

  /** `{ ...product, ...updates }`. */
  function ApplyPatch(p: Product, u: Patch): (r: Product)
    ensures r.id == u.id.GetOr(p.id)
    ensures r.name == u.name.GetOr(p.name)
    ensures r.maturityDate == u.maturityDate.GetOr(p.maturityDate)
    ensures r.amount == (if u.amount.Some? then u.amount else p.amount)
    ensures r.memo == (if u.memo.Some? then u.memo else p.memo)
  {
    Product(
      if u.id.Some? then u.id.value else p.id,
      if u.name.Some? then u.name.value else p.name,
      if u.maturityDate.Some? then u.maturityDate.value else p.maturityDate,
      if u.amount.Some? then Some(u.amount.value) else p.amount,
      if u.memo.Some? then Some(u.memo.value) else p.memo)
  }

  /** `products.map(p => p.id === id ? { ...p, ...updates } : p)`. */
  function PatchWhere(ps: seq<Product>, id: string, u: Patch): (r: seq<Product>)
    ensures |r| == |ps|
    ensures forall i :: 0 <= i < |ps| ==>
      r[i] == if ps[i].id == id then ApplyPatch(ps[i], u) else ps[i]
  {
    if ps == [] then []
    else [if ps[0].id == id then ApplyPatch(ps[0], u) else ps[0]] + PatchWhere(ps[1..], id, u)
  }

  /** `updateProduct(category, id, updates)`: patches the products of the
      category whose id matches, in place; nothing else changes. */
  function UpdateProduct(a: Assets, c: Category, id: string, u: Patch): (r: Assets)
    ensures |Get(r, c)| == |Get(a, c)|
    ensures forall i :: 0 <= i < |Get(a, c)| ==>
      Get(r, c)[i] == if Get(a, c)[i].id == id then ApplyPatch(Get(a, c)[i], u) else Get(a, c)[i]
    ensures forall c' :: c' != c ==> Get(r, c') == Get(a, c')
  {
    Put(a, c, PatchWhere(Get(a, c), id, u))
  }

  /** An update naming an id the category does not hold changes nothing. */
  lemma UpdateAbsentId(a: Assets, c: Category, id: string, u: Patch)
    requires forall i :: 0 <= i < |Get(a, c)| ==> Get(a, c)[i].id != id
    ensures UpdateProduct(a, c, id, u) == a
  {
    var r := UpdateProduct(a, c, id, u);
    assert Get(r, c) == Get(a, c);
    match c
    case DepositSavings => assert r.depositSavings == a.depositSavings;
    case TrustIsa => assert r.trustIsa == a.trustIsa;
    case Insurance => assert r.insurance == a.insurance;
    case Pension => assert r.pension == a.pension;
  }

  /** Patching amounts only where the id matches and leaving them elsewhere:
      a patch that does not carry an amount keeps every total. */
  lemma {:induction false} PatchWhereKeepsSum(ps: seq<Product>, id: string, u: Patch)
    requires u.amount.None?
    ensures SumAmounts(PatchWhere(ps, id, u)) == SumAmounts(ps)
    decreases |ps|
  {
    if ps != [] {
      var r := PatchWhere(ps, id, u);
      assert r[1..] == PatchWhere(ps[1..], id, u);
      PatchWhereKeepsSum(ps[1..], id, u);
    }
  }

  lemma UpdateWithoutAmountKeepsTotals(a: Assets, c: Category, id: string, u: Patch)
    requires u.amount.None?
    ensures TotalAssets(UpdateProduct(a, c, id, u)) == TotalAssets(a)
  {
    PatchWhereKeepsSum(Get(a, c), id, u);
    TotalAssetsPut(a, c, PatchWhere(Get(a, c), id, u));
  }

  // ---------------------------------------------------------------------
  // Deleting

  /** `xs` is `ys` with some elements left out, in the same order. */
  predicate IsSubsequence<T(==)>(xs: seq<T>, ys: seq<T>) {
    if xs == [] then true
    else if ys == [] then false
    else if xs[0] == ys[0] then IsSubsequence(xs[1..], ys[1..])
    else IsSubsequence(xs, ys[1..])
  }

  /** How many products carry the id. */
  function CountId(ps: seq<Product>, id: string): nat {
    if ps == [] then 0 else (if ps[0].id == id then 1 else 0) + CountId(ps[1..], id)
  }

  /** `products.filter(p => p.id !== id)`. */
  function RemoveId(ps: seq<Product>, id: string): (r: seq<Product>)
    ensures forall i :: 0 <= i < |r| ==> r[i].id != id
    ensures forall p :: p in ps && p.id != id ==> p in r
    ensures forall p :: p in r ==> p in ps
    ensures IsSubsequence(r, ps)
    ensures |r| + CountId(ps, id) == |ps|
  {
    if ps == [] then []
    else if ps[0].id == id then RemoveId(ps[1..], id)
    else [ps[0]] + RemoveId(ps[1..], id)
  }

  /** `handleDelete(category, id)` on the roster: the category loses exactly
      its products with that id; the others are untouched. */
  function DeleteProduct(a: Assets, c: Category, id: string): (r: Assets)
    ensures forall i :: 0 <= i < |Get(r, c)| ==> Get(r, c)[i].id != id
    ensures forall p :: p in Get(a, c) && p.id != id ==> p in Get(r, c)
    ensures IsSubsequence(Get(r, c), Get(a, c))
    ensures |Get(r, c)| + CountId(Get(a, c), id) == |Get(a, c)|
    ensures forall c' :: c' != c ==> Get(r, c') == Get(a, c')
  {
    Put(a, c, RemoveId(Get(a, c), id))
  }

  /** Deleting the same id twice is deleting it once. */
  lemma {:induction false} RemoveIdIdempotent(ps: seq<Product>, id: string)
    ensures RemoveId(RemoveId(ps, id), id) == RemoveId(ps, id)
    decreases |ps|
  {
    if ps != [] {
      RemoveIdIdempotent(ps[1..], id);
      if ps[0].id != id {
        assert ([ps[0]] + RemoveId(ps[1..], id))[1..] == RemoveId(ps[1..], id);
      }
    }
  }

  /** The products a deletion drops are exactly the ones with the id, so the
      category total falls by their amounts and by nothing else. */
  function KeepId(ps: seq<Product>, id: string): (r: seq<Product>)
    ensures forall i :: 0 <= i < |r| ==> r[i].id == id
    ensures |r| == CountId(ps, id)
    ensures IsSubsequence(r, ps)
  {
    if ps == [] then []
    else if ps[0].id == id then [ps[0]] + KeepId(ps[1..], id)
    else KeepId(ps[1..], id)
  }

  lemma {:induction false} RemoveIdSum(ps: seq<Product>, id: string)
    ensures SumAmounts(RemoveId(ps, id)) + SumAmounts(KeepId(ps, id)) == SumAmounts(ps)
    decreases |ps|
  {
    if ps != [] {
      RemoveIdSum(ps[1..], id);
      var kept := KeepId(ps[1..], id);
      var rest := RemoveId(ps[1..], id);
      if ps[0].id == id {
        assert ([ps[0]] + kept)[1..] == kept;
      } else {
        assert ([ps[0]] + rest)[1..] == rest;
      }
    }
  }

  // ---------------------------------------------------------------------
  // Save-time validation

  /** `!product.name || product.name.trim() === ""`. */
  function BlankName(p: Product): (b: bool)
    ensures b <==> AllWs(p.name)
  {
    TrimEmptyIffAllWs(p.name);
    p.name == "" || Trim(p.name) == ""
  }

  /** Some product of a non-empty list is blank exactly when the first one
      or some later one is. */
  lemma BlankCons(ps: seq<Product>)
    requires ps != []
    ensures (exists i :: 0 <= i < |ps| && BlankName(ps[i])) <==>
      BlankName(ps[0]) || exists i :: 0 <= i < |ps[1..]| && BlankName(ps[1..][i])
  {
    if exists i :: 0 <= i < |ps| && BlankName(ps[i]) {
      var i :| 0 <= i < |ps| && BlankName(ps[i]);
      if i > 0 {
        assert ps[1..][i - 1] == ps[i];
      }
    }
  }

  /** `allProducts.filter(blank).length`. */
  function CountBlank(ps: seq<Product>): (n: nat)
    ensures n > 0 <==> exists i :: 0 <= i < |ps| && BlankName(ps[i])
  {
    if ps == [] then 0
    else
      var rest := CountBlank(ps[1..]);
      BlankCons(ps);
      (if BlankName(ps[0]) then 1 else 0) + rest
  }

  const NameRequiredMessage := "상품 이름을 입력해주세요."

  /** What pressing save does with the roster: either it shows the
      name-required error and writes nothing, or it writes the four lists. */
  datatype SaveDecision = RejectSave(message: string) | WriteAssets(assets: Assets)

  /** The validation step of `handleSubmit` on the asset page. */
  function ValidateForSave(a: Assets): (r: SaveDecision)
    ensures r.RejectSave? <==> exists c, p :: p in Get(a, c) && BlankName(p)
    ensures r.RejectSave? ==> r.message == NameRequiredMessage
    ensures r.WriteAssets? ==> r.assets == a
  {
    var all := AllProducts(a);
    if CountBlank(all) > 0 then
      var i :| 0 <= i < |all| && BlankName(all[i]);
      InAllProducts(a, all[i]);
      RejectSave(NameRequiredMessage)
    else
      forall c, p | p in Get(a, c) ensures !BlankName(p) {
        InAllProducts(a, p);
      }
      WriteAssets(a)
  }
}
