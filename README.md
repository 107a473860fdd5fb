# Sellaroshop storefront rules and visual search, in Dafny

This project models the two rule sets under the Sellaroshop Django storefront.

- **Cart, stock and pricing.** A product has a price, an optional discount price, a stock count
  and a sold count. Saving a product recomputes `is_on_sale`. The derived prices are
  `final_price` and `discount_percentage`. Stock moves through `reduce_stock` and
  `increase_stock`. A cart is a list of lines, one per product. The request handlers add to
  it, set a quantity, remove a line, clear it, merge a guest cart into a user's cart at login
  or signup, and check out. Wishlist toggling, review submission and the live-search length
  guard are modelled too.
- **Visual search.** The engine builds a fixed 512-entry descriptor from an image. It takes
  32 histogram bins, then the 64×64 grayscale pixels divided by 255, and truncates or
  zero-pads the result. It compares two descriptors by cosine similarity over their common
  length. The `visual_search` endpoint keeps products scoring above 0.3 and sorts them by
  rounded score, highest first and stable. It reports how many matched and returns the first
  ten. The `extract_product_features` endpoint and the `extract_features` command index every
  product that has an image but no stored descriptor.

Modules, one per source file, plus three shared ones (`Wrappers`, `Text` and `Indexing`):

| file | module | models |
|---|---|---|
| `wrappers.dfy` | `Wrappers` | the `Option` type |
| `text.dfy` | `Text` | Python's `str.strip()` (Unicode whitespace as `str.isspace`) |
| `shop_models.dfy` | `ShopModels` | `Product`, `Cart`, `CartItem` of `shop_app/models.py` |
| `shop_views.dfy` | `ShopViews` | the handlers of `shop_app/views.py` |
| `visual_search.dfy` | `VisualSearch` | `products/visual_search.py` |
| `indexing.dfy` | `Indexing` | the per-product indexing step shared by the two indexing loops |
| `product_views.dfy` | `ProductViews` | `products/views.py` |
| `extract_command.dfy` | `ExtractCommand` | `products/management/commands/extract_features.py` |

Modelling choices:

- Prices are integer cents; `Decimal` values have two decimals. A discount price counts only
  when it is set and non-zero, as `Decimal` truthiness requires.
- `round` on a `Decimal` rounds half to even. `RoundHalfEven` computes it exactly on the
  rational `100·(price − discount) / price`.
- Objects whose fields the source saves in place are classes: `Product`, `Cart`, the wishlist
  table, the review table and the indexed product. Each cart handler is a method that takes the caller's `Cart`.
  Each method is proved against a function on the cart's lines (`AddEdit`, `UpdateEdit`,
  `RemoveEdit`, `Merge`). Lemmas about those functions state what the handlers promise.
- Cart lines are kept newest first, which is the order `CartItem` declares. A new line is put
  at the front.
- Cart items are identified by product rather than by item id. The `(cart, product)` pair is
  unique, so the two are equivalent.
- Quantity and rating columns are non-negative integer fields. Storing a negative value
  violates the column's CHECK constraint. The handler's `except` then answers with status 400
  and nothing changes. The model returns `IntegrityError` or `ReviewRefused` in that case.
- The image library calls, base64 decoding, byte decoding of stored descriptors, the cosine
  similarity and 4-decimal rounding are foreign code. They are passed in as functions, with
  `None` standing for a call that raises. Their length contracts are stated as predicates
  (`Conforms`, `SerialisesFloat64`).
- Scores are abstract ordered values (`real`).

Behaviours of the code that are easy to misread:

- The threshold applies to the raw score, but the results carry and are sorted by the score
  rounded to four decimals. A raw score just above 0.3 can therefore be returned as `0.3`.
  Nothing bounds the returned scores strictly above 0.3.
- The payload of a data URL is the second field of splitting at every `base64,`. It runs from
  the first marker to the next one, not to the end of the string (`PayloadStopsAtSecondMarker`).
- `add_to_cart` does not check that the requested quantity is positive. A quantity of 0
  creates a line of quantity 0. A negative quantity lowers an existing line, as long as the
  result stays non-negative.
- `submit_review` updates `review_count` only when the product has at least one approved
  review. Its `product.save()` also recomputes `is_on_sale`.

## Model

| member | source | states |
|---|---|---|
| `Text.Strip` | Sellaroshop/shop_app/views.py:458 | both end characters of the stripped text are non-whitespace |
| `Text.StripIsSlice` | Sellaroshop/shop_app/views.py:458 | the stripped text is the contiguous part of the input that starts right after its leading whitespace |
| `Text.StripDropsOnlySpace` | Sellaroshop/shop_app/views.py:458 | every character stripped, before or after the kept part, is whitespace |
| `Text.StripKeepsNonSpace` | Sellaroshop/shop_app/views.py:458 | stripping removes no non-whitespace character |
| `Text.StripLengthAtLeastTwo` | Sellaroshop/shop_app/views.py:458-460 | the stripped query has at least two characters iff the raw query has at least two non-whitespace characters |
| `ShopViews.SearchTerm` | Sellaroshop/shop_app/views.py:456-465 | the database is queried iff the raw query has two non-whitespace characters, and it is queried with the stripped query |
| `ShopModels.RoundHalfEven` | Sellaroshop/shop_app/models.py:153-154 | the result is within half a unit of n/m, and an exact tie goes to the even neighbour |
| `ShopModels.RoundBetween` | Sellaroshop/shop_app/models.py:153-154 | rounding a value that lies between two integers gives a result between them |
| `ShopModels.Product.Save` | Sellaroshop/shop_app/models.py:127-137 | after saving, `is_on_sale` holds iff a non-zero discount price is set and is below the price |
| `ShopModels.Product.FinalPrice` | Sellaroshop/shop_app/models.py:142-147 | for a saved product, the price paid is at most the list price, and strictly below it iff the product is on sale |
| `ShopModels.Product.DiscountPercentage` | Sellaroshop/shop_app/models.py:149-155 | 0 unless on sale with a discount price and a positive price; otherwise 100·(price − discount)/price rounded to the nearest integer, with an exact half going to the even one |
| `ShopModels.SavedDiscountPercentage` | Sellaroshop/shop_app/models.py:127-155 | for a saved product with a positive discount price the percentage lies in [0, 100], and a positive percentage implies the product is on sale |
| `ShopModels.Product.ReduceStock` | Sellaroshop/shop_app/models.py:162-169 | succeeds iff the stock covers the quantity. Success moves exactly the quantity from stock to sold count and re-saves. Failure changes nothing. Stock + sold count is conserved |
| `ShopModels.Product.IncreaseStock` | Sellaroshop/shop_app/models.py:171-174 | the stock grows by exactly the quantity. The save keeps `is_on_sale` for a product already saved |
| `ShopModels.SumQuantities` | Sellaroshop/shop_app/models.py:243-245 | the item count bounds every line's quantity, and is 0 iff every line has quantity 0 |
| `ShopModels.SumQuantitiesAppend` | Sellaroshop/shop_app/models.py:243-245 | the item count of two lists of lines is the sum of their counts |
| `ShopModels.QuantityOfAt` | Sellaroshop/shop_app/models.py:262-270 | with one line per product, a product's quantity is the quantity on its line |
| `ShopModels.ItemTotal` | Sellaroshop/shop_app/models.py:276-278 | for a saved product a line's total is at most price × quantity, and for a non-empty line strictly less iff the product is on sale |
| `ShopModels.CostOfAppend` | Sellaroshop/shop_app/models.py:247-252 | the cost of two lists of lines is the sum of their costs |
| `ShopModels.Cart.TotalCost` | Sellaroshop/shop_app/models.py:247-252 | the accumulating loop returns the sum of final price × quantity over the lines |
| `ShopModels.EmptyCartTotals` | Sellaroshop/shop_app/models.py:243-256 | a cart for which `is_empty` holds has item count 0 and total 0 |
| `ShopViews.Find` | Sellaroshop/shop_app/views.py:176-180 | returns the position of the product's line when the cart has one, and nothing iff it has none |
| `ShopViews.AddEditSpec` | Sellaroshop/shop_app/views.py:164-190 | adding succeeds iff the product is available, the request is within stock and the new quantity lies in [0, stock]. The product's quantity then grows by the request and stays within stock. Other products are untouched and lines stay one per product |
| `ShopViews.InStockIffOneUnitAddable` | Sellaroshop/shop_app/models.py:157-160 | `is_in_stock` holds exactly when the `add_to_cart` guard lets one unit of the product into a cart that lacks it |
| `ShopViews.AddToCart` | Sellaroshop/shop_app/views.py:157-208 | on success the lines become those of `AddEdit` and the reply carries the new item count and total. On refusal the lines are unchanged and the reason is given |
| `ShopViews.UpdateEditSpec` | Sellaroshop/shop_app/views.py:286-303 | updating succeeds iff 1 ≤ q ≤ stock and the cart has the line; a quantity below 1 is refused first. The line then holds exactly q and every other line is unchanged |
| `ShopViews.UpdateCartQuantity` | Sellaroshop/shop_app/views.py:281-322 | on success the lines become those of `UpdateEdit` with the new totals. On refusal nothing changes |
| `ShopViews.RemoveEditSpec` | Sellaroshop/shop_app/views.py:214-219 | removal succeeds iff the cart holds the product. The product is then gone, the item count drops by its quantity, and other products are untouched |
| `ShopViews.RemoveFromCart` | Sellaroshop/shop_app/views.py:212-235 | on success the lines become those of `RemoveEdit` with the new totals. On refusal nothing changes |
| `ShopViews.ClearCart` | Sellaroshop/shop_app/views.py:335-341 | the cart ends with no lines |
| `ShopViews.MergeLineSpec` | Sellaroshop/shop_app/views.py:68-76 | moving one guest line adds its quantity to the user's line for that product, or adds the line |
| `ShopViews.MergeSpec` | Sellaroshop/shop_app/views.py:63-78 | after the merge each product's quantity is the user's plus the guest's, with no stock cap. The cart holds exactly the products of either cart, one line each |
| `ShopViews.MergeGuestCart` | Sellaroshop/shop_app/views.py:104-119 | the loop leaves the user's cart equal to `Merge` of the two carts and deletes the guest cart's lines |
| `ShopViews.OutOfStockEmptyIff` | Sellaroshop/shop_app/views.py:353-359 | the out-of-stock list is empty iff every line's quantity is covered by its product's stock |
| `ShopViews.CollectOutOfStock` | Sellaroshop/shop_app/views.py:354-357 | the loop collects exactly the products whose line exceeds their stock, in cart order |
| `ShopViews.Checkout` | Sellaroshop/shop_app/views.py:343-387 | an empty cart redirects and an out-of-stock cart is reported; neither, nor a GET, changes anything. A POST on a cart in stock lowers each product's stock and raises its sold count by its line's quantity. The order reports the pre-checkout total and line count, and the cart ends empty. The out-of-stock page and the confirmation form both show the cart's total cost. Only the stock, sold count and sale flag of the cart's products may change; their other fields and all other objects stay as they were |
| `ShopViews.Toggled` | Sellaroshop/shop_app/views.py:596-609 | the entry's membership flips and no other entry changes |
| `ShopViews.ToggleTwice` | Sellaroshop/shop_app/views.py:596-615 | toggling the same entry twice restores the wishlist |
| `ShopViews.Wishlist.Toggle` | Sellaroshop/shop_app/views.py:591-615 | the wishlist becomes the toggled set; `in_wishlist` is true iff the entry was absent |
| `ShopViews.Upsert` | Sellaroshop/shop_app/views.py:634-653 | there is one review per (user, product). Resubmitting overwrites its rating and comment and keeps its approval. A first review is created approved. Other reviews are untouched |
| `ShopViews.UpsertApprovedCount` | Sellaroshop/shop_app/views.py:640-660 | a first review adds one approved review of the product and a resubmission adds none |
| `ShopViews.UpsertOtherCounts` | Sellaroshop/shop_app/views.py:640-660 | a review of one product never changes the number of approved reviews of another |
| `ShopViews.ReviewBoard.SubmitReview` | Sellaroshop/shop_app/views.py:626-671 | a negative rating changes nothing. Otherwise the review is upserted with the stripped comment. When the product has approved reviews its `review_count` becomes their number and the product is re-saved; a first review raises that count by one |
| `VisualSearch.Normalize` | Sellaroshop/products/visual_search.py:28 | each pixel feature is its sample divided by 255 and lies in [0, 1] |
| `VisualSearch.Fit` | Sellaroshop/products/visual_search.py:33-37 | the result is exactly n long: a prefix of the input when it is too long, the input followed by zeros when it is short |
| `VisualSearch.ExtractFeatures` | Sellaroshop/products/visual_search.py:11-43 | a descriptor exists exactly when there is an image and grey conversion, resizing and the histogram all succeed; no image, or any library call that raises, gives `None`. A descriptor is always exactly 512 long |
| `VisualSearch.DescriptorLayout` | Sellaroshop/products/visual_search.py:24-37 | with a conforming library, a descriptor is the 32 histogram bins followed by the first 480 resized pixels, row by row, each in [0, 1] |
| `VisualSearch.ShortDescriptorIsPadded` | Sellaroshop/products/visual_search.py:31-37 | a concatenation shorter than 512 is padded with zeros at the end only |
| `VisualSearch.ColorDescriptorIsGrayDescriptor` | Sellaroshop/products/visual_search.py:18-21 | a 3-dimensional image has the descriptor of its grayscale conversion |
| `VisualSearch.NonColorSkipsConversion` | Sellaroshop/products/visual_search.py:18-21 | any other image is used as it is; the conversion is never consulted |
| `VisualSearch.CalculateSimilarity` | Sellaroshop/products/visual_search.py:45-59 | a missing descriptor or a raising cosine gives 0, and the similarity stays in [−1, 1] whenever the cosine does |
| `VisualSearch.SimilarityIgnoresTail` | Sellaroshop/products/visual_search.py:52-54 | entries past the shorter vector's length never change the similarity |
| `VisualSearch.SimilaritySymmetric` | Sellaroshop/products/visual_search.py:45-59 | with a symmetric cosine the similarity does not depend on argument order or on which vector is shorter |
| `Indexing.Classify` | Sellaroshop/products/management/commands/extract_features.py:17-56 | no image ⇒ no-image; image and a stored descriptor ⇒ already extracted. Eligible ⇒ exactly one of processed or an error; processed iff the image is read and extraction succeeds |
| `Indexing.Written` | Sellaroshop/products/management/commands/extract_features.py:22-28 | a descriptor is written only for a processed product, and it is the bytes of the extracted features. Every other product keeps its stored value |
| `Indexing.SecondPassIsIdle` | Sellaroshop/products/views.py:106-121 | a processed product is skipped as already extracted on the next pass, so a second pass writes nothing new |
| `Indexing.IndexOne` | Sellaroshop/products/views.py:107-130 | the step's outcome is `Classify` of the product and its descriptor becomes `Written` |
| `Indexing.CountPartition` | Sellaroshop/products/management/commands/extract_features.py:10-47 | processed + errors is the number of eligible products; together with the skipped ones they number all products |
| `ProductViews.Payload` | Sellaroshop/products/views.py:24-25 | a string without `base64,` is decoded whole, and the decoded text never holds `base64,` |
| `ProductViews.PayloadOfDataUrl` | Sellaroshop/products/views.py:24-27 | for a data URL whose header does not itself hold `base64,`, exactly the body after the marker is decoded |
| `ProductViews.WebpDataUrl` | Sellaroshop/products/views.py:24-27 | a `data:image/webp;` URL, whose header contains a `b`, decodes exactly its body |
| `ProductViews.PayloadStopsAtSecondMarker` | Sellaroshop/products/views.py:24-25 | after a second `base64,`, nothing is decoded |
| `ProductViews.MatchOf` | Sellaroshop/products/views.py:56-80 | a product matches iff it has a stored descriptor that decodes and its raw similarity exceeds 0.3; the match carries its id and that similarity rounded to four places |
| `ProductViews.MatchesSpec` | Sellaroshop/products/views.py:55-80 | every match comes from some product, and every product that yields a match is listed |
| `ProductViews.SkippedCandidate` | Sellaroshop/products/views.py:78-80 | a product whose comparison raises or falls below the threshold leaves the other matches as they are |
| `ProductViews.CollectMatches` | Sellaroshop/products/views.py:53-80 | the loop collects exactly `Matches`, in product order |
| `ProductViews.SortDescSpec` | Sellaroshop/products/views.py:83 | `SortDesc`, the stable reverse sort, yields descending score order. Its output is a permutation of the matches, and equal scores keep their original order |
| `ProductViews.Top` | Sellaroshop/products/views.py:88 | the returned results are a prefix of the sorted list, exactly ten long when it has more than ten entries, and all of it otherwise |
| `ProductViews.QueryImage` | Sellaroshop/products/views.py:17-40 | an uploaded file takes precedence over `image_data`. No input gives 400, and only an undecodable base64 payload gives 500. A query image is obtained exactly when the chosen input decodes (the file, or else the base64 payload and then its bytes), and it is what the image decoder made of it. Every refusal is missing input, an undecodable payload (500) or an invalid image format, never the engine's `CouldNotProcess` |
| `ProductViews.HandleVisualSearch` | Sellaroshop/products/views.py:13-95 | no image gives 400 and an undecodable image 400; a base64 payload that does not decode gives 500, and a failed extraction 400. Otherwise `matches_found` counts all matches, and the results are the first ≤ 10 of the stable descending sort |
| `ProductViews.ResultsAreMatches` | Sellaroshop/products/views.py:64-88 | every returned result comes from a product with a stored descriptor whose raw score exceeds 0.3 |
| `ProductViews.ExtractProductFeatures` | Sellaroshop/products/views.py:99-137 | the counters are the numbers of processed and failed products, and their sum is the number of eligible products. Only processed products receive a descriptor |
| `ExtractCommand.Handle` | Sellaroshop/products/management/commands/extract_features.py:9-62 | one report line per product, in order, with its outcome; the counters are those of the lines. Only processed products receive a descriptor |

## Left out

- The ORM, sessions and authentication are not modelled: `get_or_create_cart`, `login`,
  `authenticate`, form validation and `get_object_or_404` lookups. Products and carts are
  passed in as objects, and a missing product is not modelled.
- `MergeGuestCart`: the merge runs only when the session has a key and a guest cart exists.
  That condition is session state and is not modelled. An exception during the merge is only
  printed by the source, which the model does not represent.
- `ShopViews.Checkout`: the `transaction.atomic` block and concurrent requests between the
  stock check and the stock reduction are not modelled. The model runs the step on one thread.
- `ShopViews.AddToCart`, `ShopViews.UpdateCartQuantity`: the reply omits `item_total`,
  `message` and the echoed quantity. Only the item count, the total and the refusal reason are
  kept.
- `ShopViews.ReviewBoard.SubmitReview`: the average rating (`Avg`, then `round(avg, 2)`) is
  floating point and is not modelled. Only `review_count` and `is_on_sale` of the product are
  tracked.
- `ShopModels.RoundHalfEven`: `Decimal` arithmetic uses 28 significant digits. The model
  divides exactly, which agrees for prices under 10^20 cents.
- `ShopModels.Cart.TotalCost`: `round(total, 2)` is the identity on two-decimal values and is
  not modelled.
- The response formats are not modelled: JSON, templates, `float()` conversions and error
  message texts.
- The numeric value of the cosine similarity is not modelled. Neither are the image library
  (decode, grayscale, resize, histogram), base64 decoding and `round(x, 4)`. All are parameters.
- `ProductViews.QueryImage`, `ProductViews.HandleVisualSearch`: an exception raised inside image decoding (for example an
  empty upload) leads to status 500 in the source. The model treats every decoding failure as
  an undecodable image (400).
- The descriptor's byte round trip is not modelled. Descriptors are written as float64 bytes
  and read back as float32, and the source does not promise they agree.
- `Indexing.IndexOne`: exceptions from `image.path` and from `save` are not modelled apart from
  an unreadable image. Such an exception counts as an error in the source.
- The `is_active` filter on products is an ORM query; the model receives the filtered products.
- Not part of this model: `haversine` and `find_nearby_stores` (floating point),
  `Deal.is_live` (wall-clock time), the price filters of `search_products` and
  `category_products` (ORM), the `api_visual_search` stub (dummy data), settings, URL
  configurations and admin files.
