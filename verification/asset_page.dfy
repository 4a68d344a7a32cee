/** The asset page's state: the roster plus the two UI targets it keeps, the
    product whose action menu is open and the product whose memo is being
    edited, and the handlers that change them. */
module AssetPage {
  import opened Optional
  import opened Roster
  import opened AmountFormat
  import opened Dates

  /** A `{ category, productId }` pair; `None` stands for the page's
      `{ category: null, productId: null }`. */
  datatype Target = Target(category: Category, productId: string)

  datatype PageState = PageState(
    assets: Assets,
    openMenu: Option<Target>,
    editingMemo: Option<Target>)

  /** `toggleMenu(category, id)`: closes the menu when that product's menu is
      the open one, and opens that product's menu otherwise. */
  function ToggleMenu(s: PageState, t: Target): (r: PageState)
    ensures r.openMenu == None <==> s.openMenu == Some(t)
    ensures r.openMenu != None ==> r.openMenu == Some(t)
    ensures r.assets == s.assets && r.editingMemo == s.editingMemo
  {
    if s.openMenu == Some(t) then s.(openMenu := None) else s.(openMenu := Some(t))
  }

  /** Toggling the same product twice restores the menu exactly when the
      menu was closed or already on that product: toggling a product while
      another product's menu is open replaces that menu, and the second
      toggle then closes it. */
  lemma ToggleMenuTwice(s: PageState, t: Target)
    ensures ToggleMenu(ToggleMenu(s, t), t) == s <==> s.openMenu == None || s.openMenu == Some(t)
  {
  }

  /** `closeMenu()`. */
  function CloseMenu(s: PageState): (r: PageState)
    ensures r.openMenu == None
    ensures r.assets == s.assets && r.editingMemo == s.editingMemo
  {
    s.(openMenu := None)
  }

  /** The "add product" button of a category. */
  function OnAddProduct(s: PageState, c: Category, id: string): (r: PageState)
    ensures r.assets == AddProduct(s.assets, c, id)
    ensures r.openMenu == s.openMenu && r.editingMemo == s.editingMemo
  {
    s.(assets := AddProduct(s.assets, c, id))
  }

  /** `handleDelete(category, id)`: removes the product and closes the menu. */
  function HandleDelete(s: PageState, c: Category, id: string): (r: PageState)
    ensures r.assets == DeleteProduct(s.assets, c, id)
    ensures forall i :: 0 <= i < |Get(r.assets, c)| ==> Get(r.assets, c)[i].id != id
    ensures r.openMenu == None && r.editingMemo == s.editingMemo
  {
    CloseMenu(s.(assets := DeleteProduct(s.assets, c, id)))
  }

  /** `startMemoEdit(category, id)`: opens the memo editor and closes the
      menu. */
  function StartMemoEdit(s: PageState, t: Target): (r: PageState)
    ensures r.editingMemo == Some(t) && r.openMenu == None && r.assets == s.assets
  {
    CloseMenu(s.(editingMemo := Some(t)))
  }

  /** `cancelMemoEdit()`: closes the memo editor; a memo typed into it stays,
      since the textarea writes through to the product as it is edited. */
  function CancelMemoEdit(s: PageState): (r: PageState)
    ensures r.editingMemo == None && r.openMenu == s.openMenu && r.assets == s.assets
  {
    s.(editingMemo := None)
  }

  /** The memo textarea's change handler: each keystroke writes the typed
      text straight into the product; the editor stays open. */
  function OnMemoInput(s: PageState, c: Category, id: string, typed: string): (r: PageState)
    ensures |Get(r.assets, c)| == |Get(s.assets, c)|
    ensures forall i :: 0 <= i < |Get(s.assets, c)| ==>
      var p, q := Get(s.assets, c)[i], Get(r.assets, c)[i];
      if p.id == id then q == p.(memo := Some(typed)) else q == p
    ensures forall c' :: c' != c ==> Get(r.assets, c') == Get(s.assets, c')
    ensures r.openMenu == s.openMenu && r.editingMemo == s.editingMemo
  {
    s.(assets := UpdateProduct(s.assets, c, id, MemoPatch(typed)))
  }

  /** Cancelling after typing keeps what was typed: the cancel button only
      closes the editor, and the memo it would discard is already stored. */
  lemma CancelKeepsTypedMemo(s: PageState, c: Category, id: string, typed: string)
    ensures var r := CancelMemoEdit(OnMemoInput(s, c, id, typed));
      && r.editingMemo == None
      && r.assets == SaveMemo(s, c, id, typed).assets
      && forall i :: 0 <= i < |Get(r.assets, c)| && Get(r.assets, c)[i].id == id ==>
           Get(r.assets, c)[i].memo == Some(typed)
  {
  }

  function MemoPatch(memo: string): Patch {
    Patch(None, None, None, None, Some(memo))
  }

  /** `saveMemo(category, id, memo)`: stores the memo on the matching
      products and closes the editor. */
  function SaveMemo(s: PageState, c: Category, id: string, memo: string): (r: PageState)
    ensures r.editingMemo == None && r.openMenu == s.openMenu
    ensures |Get(r.assets, c)| == |Get(s.assets, c)|
    ensures forall i :: 0 <= i < |Get(s.assets, c)| ==>
      var p, q := Get(s.assets, c)[i], Get(r.assets, c)[i];
      if p.id == id then q == p.(memo := Some(memo)) else q == p
    ensures forall c' :: c' != c ==> Get(r.assets, c') == Get(s.assets, c')
  {
    s.(assets := UpdateProduct(s.assets, c, id, MemoPatch(memo)), editingMemo := None)
  }

  /** `deleteMemo(category, id)`: the memo becomes "" and the editor closes. */
  function DeleteMemo(s: PageState, c: Category, id: string): (r: PageState)
    ensures r.editingMemo == None && r.openMenu == s.openMenu
    ensures |Get(r.assets, c)| == |Get(s.assets, c)|
    ensures forall i :: 0 <= i < |Get(s.assets, c)| ==>
      var p, q := Get(s.assets, c)[i], Get(r.assets, c)[i];
      if p.id == id then q == p.(memo := Some("")) else q == p
    ensures forall c' :: c' != c ==> Get(r.assets, c') == Get(s.assets, c')
  {
    SaveMemo(s, c, id, "")
  }

  /** Memo edits never change an amount, so no total moves. */
  lemma MemoEditsKeepTotals(s: PageState, c: Category, id: string, memo: string)
    ensures TotalAssets(SaveMemo(s, c, id, memo).assets) == TotalAssets(s.assets)
    ensures TotalAssets(DeleteMemo(s, c, id).assets) == TotalAssets(s.assets)
  {
    UpdateWithoutAmountKeepsTotals(s.assets, c, id, MemoPatch(memo));
    UpdateWithoutAmountKeepsTotals(s.assets, c, id, MemoPatch(""));
  }

  /** The name input's change handler. */
  function OnNameInput(s: PageState, c: Category, id: string, typed: string): (r: PageState)
    ensures |Get(r.assets, c)| == |Get(s.assets, c)|
    ensures forall i :: 0 <= i < |Get(s.assets, c)| ==>
      var p, q := Get(s.assets, c)[i], Get(r.assets, c)[i];
      if p.id == id then q == p.(name := typed) else q == p
    ensures forall c' :: c' != c ==> Get(r.assets, c') == Get(s.assets, c')
    ensures r.openMenu == s.openMenu && r.editingMemo == s.editingMemo
  {
    s.(assets := UpdateProduct(s.assets, c, id, Patch(None, Some(typed), None, None, None)))
  }

  /** The amount input's change handler: whatever was typed is read with the
      digits-only parser and stored as the amount. */
  function OnAmountInput(s: PageState, c: Category, id: string, typed: string): (r: PageState)
    ensures |Get(r.assets, c)| == |Get(s.assets, c)|
    ensures forall i :: 0 <= i < |Get(s.assets, c)| ==>
      var p, q := Get(s.assets, c)[i], Get(r.assets, c)[i];
      if p.id == id then q == p.(amount := Some(ParseAmount(typed))) else q == p
    ensures forall c' :: c' != c ==> Get(r.assets, c') == Get(s.assets, c')
    ensures r.openMenu == s.openMenu && r.editingMemo == s.editingMemo
  {
    s.(assets := UpdateProduct(s.assets, c, id, Patch(None, None, None, Some(ParseAmount(typed)), None)))
  }

  /** Re-entering the text the amount input shows for a product stores the
      amount it already had (a missing amount becoming 0). */
  lemma AmountInputOfDisplayIsStable(s: PageState, c: Category, i: nat)
    requires i < |Get(s.assets, c)|
    ensures
      var p := Get(s.assets, c)[i];
      Get(OnAmountInput(s, c, p.id, DisplayAmount(p.amount)).assets, c)[i]
        == p.(amount := Some(AmountOrZero(p)))
  {
  }

  /** The maturity-date picker's change handler: a picked date is stored as
      `YYYY-MM-DD`, a cleared picker stores `undefined`. */
  function OnMaturityDatePicked(s: PageState, c: Category, id: string, picked: Option<DateParts>): (r: PageState)
    ensures |Get(r.assets, c)| == |Get(s.assets, c)|
    ensures forall i :: 0 <= i < |Get(s.assets, c)| ==>
      var p, q := Get(s.assets, c)[i], Get(r.assets, c)[i];
      if p.id == id then
        && (picked.None? ==> q == p.(maturityDate := None))
        && (picked.Some? ==> q == p.(maturityDate := Some(FormatDate(picked.value))))
      else q == p
    ensures forall c' :: c' != c ==> Get(r.assets, c') == Get(s.assets, c')
    ensures r.openMenu == s.openMenu && r.editingMemo == s.editingMemo
  {
    var stored := if picked.Some? then Some(FormatDate(picked.value)) else None;
    s.(assets := UpdateProduct(s.assets, c, id, Patch(None, None, Some(stored), None, None)))
  }
}
