/** The data model of Models.py: the product's default-image check, the
    product's image links, and the keys and uniqueness rules of the link,
    hierarchy and brand tables. A table is the sequence of its rows in
    insertion order; an insert that would break a key is refused with an
    integrity error and leaves the table as it was. */
module Models {
  import opened Wrappers

  /** A row of `product_images`: its primary key is the whole pair. */
  datatype ProductImage = ProductImage(productId: int, imageId: int)

  /** A row of `child_products`: its primary key is the (parent, child) pair. */
  datatype ChildProduct = ChildProduct(parentProductId: int, childProductId: int)

  /** A row of `child_categories`: its primary key is the (parent, child) pair. */
  datatype ChildCategory = ChildCategory(parentCategoryId: int, childCategoryId: int)

  /** A row of `brands`: keyed by `brandId`; `name` is never null and no two
      brands share it. */
  datatype Brand = Brand(brandId: int, name: string)

  /** The database refusing a row that repeats a primary or unique key. */
  datatype DbError = IntegrityError

  /** The `ValueError` raised for an image that is not linked to the product. */
  datatype ValueError = NotLinked(imageId: int, productId: int)

  /** No row occurs twice. */
  ghost predicate Distinct<R>(rows: seq<R>) {
    forall i, j :: 0 <= i < j < |rows| ==> rows[i] != rows[j]
  }

  // ---------------------------------------------------------------------
  // Tables keyed by the whole row

  /** Insert into a table whose primary key is the whole row: refused when
      the row is already there. */
  function InsertKeyed<R(==)>(rows: seq<R>, row: R): (r: Result<seq<R>, DbError>)
    ensures r.Ok? <==> forall i :: 0 <= i < |rows| ==> rows[i] != row
    ensures r.Ok? ==> |r.value| == |rows| + 1 && r.value[|rows|] == row && r.value[..|rows|] == rows
    ensures r.Err? ==> r.error == IntegrityError
  {
    if row in rows then Err(IntegrityError) else Ok(rows + [row])
  }

  /** A table keyed by the whole row never holds a row twice: every insert
      keeps it so, and the same row cannot be inserted twice. */
  lemma InsertKeyedKeepsDistinct<R>(rows: seq<R>, row: R)
    requires Distinct(rows)
    ensures var r := InsertKeyed(rows, row);
      && (r.Ok? ==> Distinct(r.value))
      && (r.Ok? ==> InsertKeyed(r.value, row).Err?)
  {
    var r := InsertKeyed(rows, row);
    if r.Ok? {
      forall i, j | 0 <= i < j < |r.value|
        ensures r.value[i] != r.value[j]
      {
        if j < |rows| {
          assert r.value[i] == rows[i] && r.value[j] == rows[j];
        } else {
          assert r.value[i] == rows[i];
        }
      }
      assert r.value[|rows|] == row;
    }
  }

  /** The rows inserted one by one, in order, as a session flushes them; the
      first refused row makes the whole batch fail. An accepted batch adds
      every row after the rows already there. */
  function InsertAll<R(==)>(rows: seq<R>, batch: seq<R>): (r: Result<seq<R>, DbError>)
    ensures r.Ok? ==> |r.value| == |rows| + |batch| && r.value[..|rows|] == rows
    ensures r.Err? ==> r.error == IntegrityError
    decreases |batch|
  {
    if batch == [] then Ok(rows)
    else match InsertKeyed(rows, batch[0])
      case Err(e) => Err(e)
      case Ok(next) => InsertAll(next, batch[1..])
  }

  /** A batch goes in exactly when, together with the rows already there,
      no row repeats; the table then holds the old rows followed by the
      batch. */
  lemma {:induction false} InsertAllDistinct<R>(rows: seq<R>, batch: seq<R>)
    requires Distinct(rows)
    ensures InsertAll(rows, batch).Ok? <==> Distinct(rows + batch)
    ensures InsertAll(rows, batch).Ok? ==> InsertAll(rows, batch).value == rows + batch
    decreases |batch|
  {
    if batch == [] {
      assert rows + batch == rows;
    } else {
      var row := batch[0];
      assert rows + batch == (rows + [row]) + batch[1..];
      if row in rows {
        var k :| 0 <= k < |rows| && rows[k] == row;
        assert (rows + batch)[k] == (rows + batch)[|rows|];
      } else {
        InsertKeyedKeepsDistinct(rows, row);
        InsertAllDistinct(rows + [row], batch[1..]);
        if Distinct(rows + batch) {
          DistinctPrefix(rows + [row], batch[1..]);
        }
      }
    }
  }

  lemma DistinctPrefix<R>(a: seq<R>, b: seq<R>)
    requires Distinct(a + b)
    ensures Distinct(a)
  {
    forall i, j | 0 <= i < j < |a|
      ensures a[i] != a[j]
    {
      assert a[i] == (a + b)[i] && a[j] == (a + b)[j];
    }
  }

  /** Product-image links: the instance of InsertAllDistinct for
      `product_images`; a batch of links is accepted exactly when no
      (product, image) pair repeats. */
  lemma {:induction false} ProductImageLinksOnce(links: seq<ProductImage>)
    ensures InsertAll([], links).Ok? <==> Distinct(links)
  {
    InsertAllDistinct([], links);
    assert [] + links == links;
  }

  /** Product hierarchy edges: the instance of InsertAllDistinct for
      `child_products`; a batch of edges is accepted exactly when no
      (parent, child) pair repeats. */
  lemma {:induction false} ChildProductEdgesOnce(edges: seq<ChildProduct>)
    ensures InsertAll([], edges).Ok? <==> Distinct(edges)
  {
    InsertAllDistinct([], edges);
    assert [] + edges == edges;
  }

  /** Category hierarchy edges: the instance of InsertAllDistinct for
      `child_categories`; a batch of edges is accepted exactly when no
      (parent, child) pair repeats. */
  lemma {:induction false} ChildCategoryEdgesOnce(edges: seq<ChildCategory>)
    ensures InsertAll([], edges).Ok? <==> Distinct(edges)
  {
    InsertAllDistinct([], edges);
    assert [] + edges == edges;
  }

  // ---------------------------------------------------------------------
  // Brands

  /** Neither the id nor the name of a brand repeats. */
  ghost predicate BrandKeys(brands: seq<Brand>) {
    forall i, j :: 0 <= i < j < |brands| ==>
      brands[i].brandId != brands[j].brandId && brands[i].name != brands[j].name
  }

  function BrandIds(brands: seq<Brand>): set<int> {
    set b | b in brands :: b.brandId
  }

  function BrandNames(brands: seq<Brand>): set<string> {
    set b | b in brands :: b.name
  }

  /** Insert a brand: refused when its id or its name is already taken. */
  function InsertBrand(brands: seq<Brand>, b: Brand): (r: Result<seq<Brand>, DbError>)
    ensures r.Ok? <==> forall i :: 0 <= i < |brands| ==>
      brands[i].brandId != b.brandId && brands[i].name != b.name
    ensures r.Ok? ==> |r.value| == |brands| + 1 && r.value[|brands|] == b && r.value[..|brands|] == brands
    ensures r.Ok? && BrandKeys(brands) ==> BrandKeys(r.value)
  {
    if b.brandId in BrandIds(brands) || b.name in BrandNames(brands) then Err(IntegrityError)
    else
      assert forall i :: 0 <= i < |brands| ==> brands[i] in brands;
      Ok(brands + [b])
  }

  /** Once a brand is in, a second brand with the same name is refused,
      whatever its id. */
  lemma SecondBrandNameRefused(brands: seq<Brand>, b: Brand, other: Brand)
    requires InsertBrand(brands, b).Ok? && other.name == b.name
    ensures InsertBrand(InsertBrand(brands, b).value, other).Err?
  {
    var r := InsertBrand(brands, b).value;
    assert r[|brands|].name == other.name;
  }

  // ---------------------------------------------------------------------
  // The default image of a product

  /** The ids of the images the links point at. */
  function LinkedImageIds(links: seq<ProductImage>): set<int> {
    set pi | pi in links :: pi.imageId
  }

  /** `validate_default_image`: `None` passes; an id passes unchanged when
      one of the product's links points at that image; anything else is a
      `ValueError` naming the image and the product. */
  function ValidateDefaultImage(productId: int, links: seq<ProductImage>, imageId: Option<int>)
    : (r: Result<Option<int>, ValueError>)
    ensures imageId.None? ==> r == Ok(None)
    ensures imageId.Some? ==>
      (r.Ok? <==> exists i :: 0 <= i < |links| && links[i].imageId == imageId.value)
    ensures r.Ok? ==> r.value == imageId
    ensures r.Err? ==> r.error == NotLinked(imageId.value, productId)
  {
    match imageId
    case None => Ok(None)
    case Some(id) =>
      if id !in LinkedImageIds(links) then Err(NotLinked(id, productId))
      else Ok(imageId)
  }

  /** For links that all belong to the product, setting an image as its
      default succeeds exactly when the link (product, image) exists. */
  lemma DefaultNeedsOwnLink(productId: int, links: seq<ProductImage>, imageId: int)
    requires forall i :: 0 <= i < |links| ==> links[i].productId == productId
    ensures ValidateDefaultImage(productId, links, Some(imageId)).Ok?
      <==> ProductImage(productId, imageId) in links
  {
    if ValidateDefaultImage(productId, links, Some(imageId)).Ok? {
      var i :| 0 <= i < |links| && links[i].imageId == imageId;
      assert links[i] == ProductImage(productId, imageId);
    }
  }

  /** The default is none, or one of the linked images. */
  ghost predicate DefaultLinked(links: seq<ProductImage>, defaultImageId: Option<int>) {
    defaultImageId.Some? ==> defaultImageId.value in LinkedImageIds(links)
  }

  /** A product with its image links and its default image. */
  class Product {
    const productId: int
    /** The `images` relationship: this product's rows of `product_images`. */
    var images: seq<ProductImage>
    var defaultImageId: Option<int>

    /** Every link is this product's and none repeats, and the default image
        is one of the linked images. */
    ghost predicate Valid()
      reads this
    {
      && (forall i :: 0 <= i < |images| ==> images[i].productId == productId)
      && Distinct(images)
      && DefaultLinked(images, defaultImageId)
    }

    /** A new product has no links and no default image. */
    constructor (productId: int)
      ensures Valid() && this.productId == productId
      ensures images == [] && defaultImageId == None
    {
      this.productId := productId;
      images := [];
      defaultImageId := None;
    }

    /** Link an image to this product: add the (product, image) row, which
        the key refuses when the link exists already. */
    method LinkImage(imageId: int) returns (r: Result<(), DbError>)
      requires Valid()
      modifies this`images
      ensures Valid()
      ensures r.Ok? <==> ProductImage(productId, imageId) !in old(images)
      ensures images == if r.Ok? then old(images) + [ProductImage(productId, imageId)] else old(images)
      ensures imageId in LinkedImageIds(images)
    {
      var row := ProductImage(productId, imageId);
      InsertKeyedKeepsDistinct(images, row);
      var inserted := InsertKeyed(images, row);
      match inserted
      case Ok(rows) =>
        assert rows == images + [row];
        assert forall id :: id in LinkedImageIds(images) ==> id in LinkedImageIds(rows);
        images := rows;
        assert row in images;
        r := Ok(());
      case Err(e) =>
        r := Err(e);
    }

    /** Assign `default_image_id` through its validator: on success the
        value is stored, on a `ValueError` the field keeps its old value. */
    method SetDefaultImage(imageId: Option<int>) returns (r: Result<Option<int>, ValueError>)
      requires Valid()
      modifies this`defaultImageId
      ensures Valid()
      ensures r == ValidateDefaultImage(productId, images, imageId)
      ensures defaultImageId == if r.Ok? then imageId else old(defaultImageId)
    {
      r := ValidateDefaultImage(productId, images, imageId);
      if r.Ok? {
        defaultImageId := r.value;
      }
    }
  }
}
