/**
 * The client's listing of the shopping cart (main.py:421-450): each row of
 * the /list response becomes a `Product` (main.py:31-34); an empty cart
 * prints "no products..."; otherwise every product is printed and a last
 * line reports the number of items and the total price.
 */
module CartList {
  import opened Wrappers

  /** A value in a /list row as the client sees it; prices are in cents. */
  datatype Cell = Num(value: int) | Text(text: string)

  /** One row of the /list response: the values of one cart entry, in column order. */
  datatype Row = Row(cells: seq<Cell>)

  /** A cart product: id, title and price taken from row[0], row[1], row[2]. */
  datatype Product = Product(productId: Cell, productTitle: Cell, productPrice: Cell)

  /** `Product(row)` (main.py:31-34); a row with fewer than three values raises. */
  function ProductOf(row: Row): (r: Option<Product>)
    ensures r.Some? <==> |row.cells| >= 3
    ensures r.Some? ==> [r.value.productId, r.value.productTitle, r.value.productPrice] == row.cells[..3]
  {
    if |row.cells| < 3 then None else Some(Product(row.cells[0], row.cells[1], row.cells[2]))
  }

  /** What the listing writes. */
  datatype Line =
    | ProductLines(product: Product)             // id, title and price of one product
    | NoProducts                                 // "no products..."
    | SubtotalLine(items: nat, totalPrice: int)  // "SUBTOTAL (items items): $total"
    | Failed                                     // an exception: the handler logs and returns

  /** Every row has the three values a `Product` needs. */
  predicate Complete(rows: seq<Row>)
  {
    forall i :: 0 <= i < |rows| ==> |rows[i].cells| >= 3
  }

  /** The row's price is a number, so it can be added to the total. */
  predicate Priced(row: Row)
  {
    |row.cells| >= 3 && row.cells[2].Num?
  }

  predicate AllPriced(rows: seq<Row>)
  {
    forall i :: 0 <= i < |rows| ==> Priced(rows[i])
  }

  /** The sum of the rows' prices. */
  function Subtotal(rows: seq<Row>): int
    requires AllPriced(rows)
  {
    if |rows| == 0 then 0 else Subtotal(rows[..|rows| - 1]) + rows[|rows| - 1].cells[2].value
  }

  /**
   * `list` of main.py:421-450 on the rows the server returned. The first
   * loop maps rows to products; the second prints each product and then
   * adds its price, so a price that is not a number stops the listing right
   * after that product is printed.
   */
  method ListCart(rows: seq<Row>) returns (out: seq<Line>)
    ensures !Complete(rows) ==> out == [Failed]
    ensures Complete(rows) && rows == [] ==> out == [NoProducts]
    ensures Complete(rows) && rows != [] && AllPriced(rows) ==>
      |out| == |rows| + 1 &&
      (forall i :: 0 <= i < |rows| ==> out[i] == ProductLines(ProductOf(rows[i]).value)) &&
      out[|rows|] == SubtotalLine(|rows|, Subtotal(rows))
    ensures Complete(rows) && !AllPriced(rows) ==>
      2 <= |out| <= |rows| + 1 && out[|out| - 1] == Failed &&
      !Priced(rows[|out| - 2]) && AllPriced(rows[..|out| - 2]) &&
      (forall i :: 0 <= i < |out| - 1 ==> out[i] == ProductLines(ProductOf(rows[i]).value))
  {
    var products := MapRows(rows);
    if products.None? {
      out := [Failed];
      return;
    }
    if |products.value| == 0 {
      out := [NoProducts];
      return;
    }
    out := PrintProducts(rows, products.value);
  }

  /** The first loop of `list` (main.py:421-424): `Product(row)` for each row, failing on a short row. */
  method MapRows(rows: seq<Row>) returns (products: Option<seq<Product>>)
    ensures products.Some? <==> Complete(rows)
    ensures products.Some? ==> |products.value| == |rows|
    ensures products.Some? ==> forall i :: 0 <= i < |rows| ==> products.value[i] == ProductOf(rows[i]).value
  {
    var mapped: seq<Product> := [];
    for i := 0 to |rows|
      invariant |mapped| == i
      invariant forall j :: 0 <= j < i ==> |rows[j].cells| >= 3 && mapped[j] == ProductOf(rows[j]).value
    {
      var product := ProductOf(rows[i]);
      if product.None? {
        return None;
      }
      mapped := mapped + [product.value];
    }
    return Some(mapped);
  }

  /**
   * The second loop of `list` and the subtotal line (main.py:436-450): each
   * product is printed, then its price is added; a price that is not a
   * number raises right after its product is printed.
   */
  method PrintProducts(rows: seq<Row>, products: seq<Product>) returns (out: seq<Line>)
    requires |products| == |rows| && Complete(rows)
    requires forall i :: 0 <= i < |rows| ==> products[i] == ProductOf(rows[i]).value
    ensures AllPriced(rows) ==>
      |out| == |rows| + 1 &&
      (forall i :: 0 <= i < |rows| ==> out[i] == ProductLines(products[i])) &&
      out[|rows|] == SubtotalLine(|rows|, Subtotal(rows))
    ensures !AllPriced(rows) ==>
      2 <= |out| <= |rows| + 1 && out[|out| - 1] == Failed &&
      !Priced(rows[|out| - 2]) && AllPriced(rows[..|out| - 2]) &&
      (forall i :: 0 <= i < |out| - 1 ==> out[i] == ProductLines(products[i]))
  {
    var totalPrice := 0;
    var items: nat := 0;
    out := [];
    for i := 0 to |products|
      invariant items == i && |out| == i
      invariant forall j :: 0 <= j < i ==> out[j] == ProductLines(products[j])
      invariant AllPriced(rows[..i])
      invariant totalPrice == Subtotal(rows[..i])
    {
      out := out + [ProductLines(products[i])];
      if !products[i].productPrice.Num? {
        out := out + [Failed];
        return;
      }
      SubtotalStep(rows, i);
      totalPrice := totalPrice + products[i].productPrice.value;
      items := items + 1;
    }
    assert rows[..|products|] == rows;
    out := out + [SubtotalLine(items, totalPrice)];
  }


  /** One more priced row adds its price to the subtotal of the rows before it. */
  lemma SubtotalStep(rows: seq<Row>, i: nat)
    requires i < |rows| && AllPriced(rows[..i]) && Priced(rows[i])
    ensures AllPriced(rows[..i + 1])
    ensures Subtotal(rows[..i + 1]) == Subtotal(rows[..i]) + rows[i].cells[2].value
  {
    assert rows[..i + 1][..i] == rows[..i];
    assert rows[..i + 1] == rows[..i] + [rows[i]];
  }

  /** The subtotal of a cart made of two parts is the sum of their subtotals. */
  lemma {:induction false} SubtotalAppend(a: seq<Row>, b: seq<Row>)
    requires AllPriced(a) && AllPriced(b)
    ensures AllPriced(a + b) && Subtotal(a + b) == Subtotal(a) + Subtotal(b)
    decreases |b|
  {
    assert forall i :: 0 <= i < |a + b| ==> (a + b)[i] == if i < |a| then a[i] else b[i - |a|];
    if |b| == 0 {
      assert a + b == a;
    } else {
      var c := b[..|b| - 1];
      assert AllPriced(c);
      SubtotalAppend(a, c);
      assert (a + b)[..|a + b| - 1] == a + c;
    }
  }

  /** Removing row j takes its price out of the subtotal. */
  lemma SubtotalRemove(rows: seq<Row>, j: nat)
    requires AllPriced(rows) && j < |rows|
    ensures AllPriced(rows[..j] + rows[j + 1..])
    ensures Subtotal(rows) == Subtotal(rows[..j] + rows[j + 1..]) + rows[j].cells[2].value
  {
    var before, row, after := rows[..j], rows[j], rows[j + 1..];
    assert AllPriced(before) && AllPriced(after) by {
      forall i | 0 <= i < |before| ensures Priced(before[i]) {
        assert before[i] == rows[i];
      }
      forall i | 0 <= i < |after| ensures Priced(after[i]) {
        assert after[i] == rows[j + 1 + i];
      }
    }
    assert Subtotal([row]) == row.cells[2].value by {
      assert [row][..0] == [];
    }
    SplitAt(rows, j);
    SubtotalAppend(before, [row]);
    SubtotalAppend(before + [row], after);
    SubtotalAppend(before, after);
  }

  /**
   * A sequence is its part before j, its j-th element and its part after.
   * Dafny knows this unaided; stating it apart from the rows keeps
   * `SubtotalRemove` cheap.
   */
  lemma SplitAt<T>(s: seq<T>, j: nat)
    requires j < |s|
    ensures s == (s[..j] + [s[j]]) + s[j + 1..]
  {
  }

  /** Two listings of the same rows stay listings of the same rows once one row is taken from each. */
  lemma MultisetRemove(rows: seq<Row>, others: seq<Row>, j: nat)
    requires |rows| > 0 && j < |others| && others[j] == rows[|rows| - 1]
    requires multiset(rows) == multiset(others)
    ensures multiset(rows[..|rows| - 1]) == multiset(others[..j] + others[j + 1..])
  {
    var last := rows[|rows| - 1];
    var init := rows[..|rows| - 1];
    var before, after := others[..j], others[j + 1..];
    assert rows == init + [last];
    assert others == before + [last] + after;
    assert multiset(rows) == multiset(init) + multiset{last};
    assert multiset(others) == multiset(before) + multiset{last} + multiset(after);
    assert multiset(before + after) == multiset(before) + multiset(after);
    calc {
      multiset(init);
      multiset(rows) - multiset{last};
      multiset(others) - multiset{last};
      multiset(before + after);
    }
  }

  /**
   * The subtotal does not depend on the order in which the server lists the
   * rows: any two listings of the same rows have the same subtotal.
   */
  lemma {:induction false} SubtotalPermutation(rows: seq<Row>, others: seq<Row>)
    requires AllPriced(rows) && multiset(rows) == multiset(others)
    ensures AllPriced(others) && Subtotal(others) == Subtotal(rows)
    decreases |rows|
  {
    assert AllPriced(others) by {
      forall i | 0 <= i < |others| ensures Priced(others[i]) {
        assert others[i] in multiset(rows);
      }
    }
    if |rows| == 0 {
      assert |others| == |multiset(others)| == 0;
    } else {
      var last := rows[|rows| - 1];
      assert last in multiset(others);
      var j :| 0 <= j < |others| && others[j] == last;
      MultisetRemove(rows, others, j);
      SubtotalRemove(others, j);
      SubtotalPermutation(rows[..|rows| - 1], others[..j] + others[j + 1..]);
    }
  }
}
