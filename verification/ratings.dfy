/**
 * Product ratings (main.py section 3.a): the mean review score and the
 * number of reviews of every product, the English category of each, and
 * the ten best and ten worst rated products among those with at least ten
 * reviews.
 *
 * A product's reviews are counted on the rows of `order_full`, so a review
 * is counted once per item of its order and once per payment of its order,
 * as the code does.
 */
module Ratings {
  import opened Common
  import opened Records
  import opened Join
  import opened FactTable
  import opened Sorting

  /** Fewest reviews a product needs to enter the rankings. */
  const MinReviews: nat := 10

  /** Length of each ranking. */
  const ListLength: nat := 10

  /** One row of the per-product aggregate: `media_avaliacao` and `qtd_avaliacoes`. */
  datatype ProductRating = ProductRating(productId: string, mean: Option<real>, count: nat)

  /** A product rating with the product's English category, after the merge with `products_merged`. */
  datatype RatedProduct = RatedProduct(rating: ProductRating, english: Option<string>)

  function ProductKey(r: FactRow): Option<string> { Some(r.ProductId()) }

  function ScoreOf(r: FactRow): Option<int> { r.ReviewScore() }

  /** The rating aggregate of product `p`: the mean and count of its non-null review scores. */
  function RatingEntry(rows: seq<FactRow>, p: string): (e: ProductRating)
    ensures var g := Group(rows, ProductKey, p);
      && e.productId == p
      && e.count == CountPresent(g, ScoreOf) <= |g|
      && (e.mean.Some? <==> e.count > 0)
      && (e.mean.Some? ==> IsMean(e.mean.value, Values(g, ScoreOf)))
  {
    var g := Group(rows, ProductKey, p);
    ValuesCount(g, ScoreOf);
    var scores := Values(g, ScoreOf);
    ProductRating(p, Mean(scores), |scores|)
  }

  /** The product id column of a rating table. */
  function RatedIds(t: seq<ProductRating>): (ids: seq<string>)
    ensures |ids| == |t|
    ensures forall i :: 0 <= i < |t| ==> ids[i] == t[i].productId
  {
    seq(|t|, i requires 0 <= i < |t| => t[i].productId)
  }

  /**
   * `order_full.groupby("product_id").agg(...)`: one entry per product that
   * occurs, with the mean score over its reviewed rows (null when it has
   * none) and the number of those rows.
   */
  function ProductRatings(rows: seq<FactRow>): (t: seq<ProductRating>)
    ensures Distinct(RatedIds(t))
    ensures forall p :: p in RatedIds(t) <==> exists r :: r in rows && r.ProductId() == p
    ensures forall i :: 0 <= i < |t| ==>
              var g := Group(rows, ProductKey, t[i].productId);
              && |g| >= 1
              && t[i].count == CountPresent(g, ScoreOf)
              && (t[i].mean.Some? <==> t[i].count > 0)
              && (t[i].mean.Some? ==> IsMean(t[i].mean.value, Values(g, ScoreOf)))
  {
    var ps := Keys(rows, ProductKey);
    var t := seq(|ps|, i requires 0 <= i < |ps| => RatingEntry(rows, ps[i]));
    assert RatedIds(t) == ps;
    forall i | 0 <= i < |t| ensures |Group(rows, ProductKey, ps[i])| >= 1 {
      assert ps[i] in ps;
      var r :| r in rows && ProductKey(r) == Some(ps[i]);
      assert r in Group(rows, ProductKey, ps[i]);
    }
    forall p ensures p in ps <==> exists r :: r in rows && r.ProductId() == p {
      assert forall r :: ProductKey(r) == Some(p) <==> r.ProductId() == p;
    }
    t
  }

  /**
   * Review scores run from 1 to 5 in the dataset; then every product's mean
   * does too.
   */
  lemma MeansStayOnScale(rows: seq<FactRow>)
    requires forall r :: r in rows && r.ReviewScore().Some? ==> 1 <= r.ReviewScore().value <= 5
    ensures forall x :: x in ProductRatings(rows) && x.mean.Some? ==> 1.0 <= x.mean.value <= 5.0
  {
    var t := ProductRatings(rows);
    forall x | x in t && x.mean.Some? ensures 1.0 <= x.mean.value <= 5.0 {
      var i :| 0 <= i < |t| && t[i] == x;
      RatingOnScale(Group(rows, ProductKey, x.productId), x);
    }
  }

  /** A mean taken over scores from 1 to 5 lies between 1 and 5. */
  lemma RatingOnScale(g: seq<FactRow>, x: ProductRating)
    requires forall r :: r in g && r.ReviewScore().Some? ==> 1 <= r.ReviewScore().value <= 5
    requires x.mean.Some? && IsMean(x.mean.value, Values(g, ScoreOf))
    ensures 1.0 <= x.mean.value <= 5.0
  {
    ValuesWithin(g, ScoreOf, 1, 5);
    BoundedMean(x.mean.value, Values(g, ScoreOf), 1.0, 5.0);
  }

  // ---- the category merge

  function RatingProduct(x: ProductRating): string { x.productId }

  function AddCategory(x: ProductRating, p: Option<ProductInfo>): RatedProduct {
    RatedProduct(x, if p.Some? then p.value.english else None)
  }

  function RatingOf(x: RatedProduct): ProductRating { x.rating }

  function SameRating(x: ProductRating): ProductRating { x }

  /**
   * `avaliacoes_produto.merge(products_merged[...], on="product_id", how="left")`:
   * each rating with the English category of its product (null when the
   * product is unknown or has no translation).
   */
  function WithCategories(ratings: seq<ProductRating>, infos: seq<ProductInfo>): (out: seq<RatedProduct>)
    ensures |out| >= |ratings|
    ensures Image(out, RatingOf) == Image(ratings, SameRating)
    ensures forall x :: x in out && x.english.Some? ==>
              exists p :: p in infos && p.productId == x.rating.productId && p.english == x.english
    ensures forall x :: x in out && (forall p :: p in infos ==> p.productId != x.rating.productId) ==>
              x.english.None?
  {
    JoinWithImage(ratings, infos, RatingProduct, InfoProduct, AddCategory, RatingOf, SameRating);
    MergedRowsCombine(ratings, infos, RatingProduct, InfoProduct, AddCategory);
    var out := JoinWith(ratings, infos, RatingProduct, InfoProduct, AddCategory);
    forall x | x in out
      ensures x.english.Some? ==> exists p :: p in infos && p.productId == x.rating.productId && p.english == x.english
      ensures (forall p :: p in infos ==> p.productId != x.rating.productId) ==> x.english.None?
    {
      var y, m :| y in ratings && Admissible(y, m, infos, RatingProduct, InfoProduct) && x == AddCategory(y, m);
    }
    out
  }

  /** With one `products_merged` row per product, the merge adds no rows. */
  lemma UniqueProductsKeepRatings(ratings: seq<ProductRating>, infos: seq<ProductInfo>)
    requires UniqueKeys(infos, InfoProduct)
    ensures |WithCategories(ratings, infos)| == |ratings|
  {
    UniqueKeyJoinKeepsLength(ratings, infos, RatingProduct, InfoProduct);
  }

  // ---- the rankings

  predicate WellReviewed(x: RatedProduct) {
    x.rating.count >= MinReviews
  }

  /** The sort key `media_avaliacao`; every product that can be ranked has a mean. */
  function MeanScore(x: RatedProduct): real {
    if x.rating.mean.Some? then x.rating.mean.value else 0.0
  }

  /** `avaliacoes_filtradas`: the products with at least ten reviews. */
  function Eligible(rated: seq<RatedProduct>): (e: seq<RatedProduct>)
    ensures forall x :: x in e <==> x in rated && x.rating.count >= MinReviews
  {
    Filter(rated, WellReviewed)
  }

  /** `top_10_melhores` and `top_10_piores`. */
  datatype Rankings = Rankings(best: seq<RatedProduct>, worst: seq<RatedProduct>)

  /**
   * The ten eligible products with the highest mean score, highest first,
   * and the ten with the lowest, lowest first. Fewer than ten eligible
   * products appear in full in both lists.
   */
  function Rank(rated: seq<RatedProduct>): (r: Rankings)
    ensures var e := Eligible(rated);
      && |r.best| == (if ListLength <= |e| then ListLength else |e|)
      && |r.worst| == (if ListLength <= |e| then ListLength else |e|)
      && multiset(r.best) <= multiset(e)
      && multiset(r.worst) <= multiset(e)
      && Descending(r.best, MeanScore)
      && Ascending(r.worst, MeanScore)
      && (forall x, y :: x in multiset(e) - multiset(r.best) && y in r.best ==> MeanScore(x) <= MeanScore(y))
      && (forall x, y :: x in multiset(e) - multiset(r.worst) && y in r.worst ==> MeanScore(y) <= MeanScore(x))
  {
    var e := Eligible(rated);
    Rankings(Largest(e, MeanScore, ListLength), Smallest(e, MeanScore, ListLength))
  }

  /** `avaliacoes_resultado`: the best list followed by the worst list. */
  function Report(r: Rankings): seq<RatedProduct> {
    r.best + r.worst
  }

  /**
   * The saved report has at most twenty rows, every one a product with at
   * least ten reviews and a mean score.
   */
  lemma ReportShape(rows: seq<FactRow>, infos: seq<ProductInfo>)
    ensures var rated := WithCategories(ProductRatings(rows), infos);
      && |Report(Rank(rated))| <= 2 * ListLength
      && forall x :: x in Report(Rank(rated)) ==>
           x in rated && x.rating.count >= MinReviews && x.rating.mean.Some?
  {
    var rated := WithCategories(ProductRatings(rows), infos);
    var r := Rank(rated);
    var e := Eligible(rated);
    EligibleHaveMeans(rows, infos);
    forall x | x in Report(r) ensures x in e {
      if x in r.best {
        assert x in multiset(r.best);
      } else {
        assert x in multiset(r.worst);
      }
    }
  }

  /**
   * Every eligible product has a mean score, so the rankings compare real
   * means: a product with ten reviewed rows has a mean that is the average
   * of at least ten scores.
   */
  lemma EligibleHaveMeans(rows: seq<FactRow>, infos: seq<ProductInfo>)
    ensures forall x :: x in Eligible(WithCategories(ProductRatings(rows), infos)) ==> x.rating.mean.Some?
  {
    var t := ProductRatings(rows);
    var rated := WithCategories(t, infos);
    forall x | x in Eligible(rated) ensures x.rating.mean.Some? {
      assert x.rating in Image(rated, RatingOf);
      assert x.rating in Image(t, SameRating);
      var i :| 0 <= i < |t| && t[i] == x.rating;
    }
  }
}
