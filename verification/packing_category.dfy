/** The packing-category card: the category's icon and colour and its packed share. The item
    rows and buttons are left out. */
module PackingCategory {
  import opened Seqs
  import opened Entities

  /** The categories with an icon and colour of their own. */
  const KnownCategories: seq<string> :=
    ["clothing", "toiletries", "documents", "electronics", "accessories", "medications", "other"]

  /** `getCategoryIcon`: the category's icon, `Package` for any other category. */
  function CategoryIcon(category: string): (r: string)
    ensures category !in KnownCategories ==> r == "Package"
  {
    if category == "clothing" then "Shirt"
    else if category == "toiletries" then "Droplets"
    else if category == "documents" then "FileText"
    else if category == "electronics" then "Smartphone"
    else if category == "accessories" then "Watch"
    else if category == "medications" then "Pill"
    else "Package"
  }

  /** `getCategoryColor`: the category's colour, `default` for any other category. */
  function CategoryColor(category: string): (r: string)
    ensures category !in KnownCategories ==> r == "default"
  {
    if category == "clothing" then "primary"
    else if category == "toiletries" then "secondary"
    else if category == "documents" then "accent"
    else if category == "electronics" then "success"
    else if category == "accessories" then "warning"
    else if category == "medications" then "error"
    else "default"
  }

  /** The packed count, the item count, and the packed share in percent (0 for no items). */
  datatype CategoryProgress = CategoryProgress(packedCount: nat, totalCount: nat, percentage: real)

  function Progress(items: seq<PackingItem>): (r: CategoryProgress)
    ensures r.totalCount == |items| && r.packedCount <= r.totalCount
    ensures r.packedCount == |Filter(items, IsPacked)|
    ensures r.totalCount > 0 ==> r.percentage * (r.totalCount as real) == (r.packedCount as real) * 100.0
    ensures r.totalCount == 0 ==> r.percentage == 0.0
    ensures 0.0 <= r.percentage <= 100.0
    ensures r.percentage == 100.0 <==> r.totalCount > 0 && r.packedCount == r.totalCount
    ensures r.percentage == 0.0 <==> r.packedCount == 0
  {
    var packed := |Filter(items, IsPacked)|;
    var total := |items|;
    var q := if total > 0 then (packed as real / total as real) * 100.0 else 0.0;
    ShareBounds(packed, total);
    CategoryProgress(packed, total, q)
  }

  /** `part / whole * 100` is the share of `whole` that `part` makes up, in percent; it lies in
      [0, 100], is 0 only for no part and 100 only for all of it. */
  lemma ShareBounds(part: nat, whole: nat)
    requires part <= whole
    ensures var p := if whole > 0 then (part as real / whole as real) * 100.0 else 0.0;
      whole > 0 ==> p * (whole as real) == (part as real) * 100.0
    ensures var p := if whole > 0 then (part as real / whole as real) * 100.0 else 0.0;
      0.0 <= p <= 100.0 && (p == 0.0 <==> part == 0) && (p == 100.0 <==> whole > 0 && part == whole)
  {
    if whole > 0 {
      var q := part as real / whole as real;
      assert q * whole as real == part as real;
      assert q * 100.0 * whole as real == part as real * 100.0;
      assert 0.0 <= q <= 1.0;
      assert q == 1.0 <==> part == whole;
    }
  }

  /** The bar is full exactly when the category has items and all are packed. */
  lemma ProgressFullIffAllPacked(items: seq<PackingItem>)
    ensures Progress(items).percentage == 100.0
      <==> |items| > 0 && forall i :: 0 <= i < |items| ==> items[i].packed
  {
    FilterKeepsAll(items, IsPacked);
  }
}
