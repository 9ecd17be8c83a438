/** The public School Life gallery: a fixed list of images, category buttons
    with counts, the category filter, the badge label and its colour. */
module SchoolLife {
  import opened JsString

  datatype GalleryImage = GalleryImage(id: int, src: string, title: string, description: string,
                                       category: string, date: string)

  /** One filter button: the category it selects, its caption and its count. */
  datatype CategoryButton = CategoryButton(id: string, caption: string, count: nat)

  const All: string := "all"

  const GalleryImages: seq<GalleryImage> := [
    GalleryImage(1, "https://images.unsplash.com/photo-1519389950473-47ba0277781c?auto=format&fit=crop&w=600&h=400",
                 "Computer Lab Session", "Students engaged in coding and digital literacy programs", "academics", "2024-02-15"),
    GalleryImage(2, "https://images.unsplash.com/photo-1581091226825-a6a2a5aee158?auto=format&fit=crop&w=600&h=400",
                 "Science Laboratory", "Hands-on experiments in our well-equipped science lab", "academics", "2024-02-10"),
    GalleryImage(3, "https://images.unsplash.com/photo-1605810230434-7631ac76ec81?auto=format&fit=crop&w=600&h=400",
                 "Annual Sports Day", "Athletes competing in various sports events", "sports", "2024-01-20"),
    GalleryImage(4, "https://images.unsplash.com/photo-1488590528505-98d2b5aba04b?auto=format&fit=crop&w=600&h=400",
                 "Digital Learning", "Modern technology integration in classroom learning", "academics", "2024-02-08"),
    GalleryImage(5, "https://images.unsplash.com/photo-1461749280684-dccba630e2f6?auto=format&fit=crop&w=600&h=400",
                 "Programming Workshop", "Students learning Java programming fundamentals", "academics", "2024-01-25"),
    GalleryImage(6, "https://images.unsplash.com/photo-1486312338219-ce68d2c6f44d?auto=format&fit=crop&w=600&h=400",
                 "Study Session", "Collaborative learning in our modern library", "academics", "2024-02-12"),
    GalleryImage(7, "https://images.unsplash.com/photo-1501854140801-50d01698950b?auto=format&fit=crop&w=600&h=400",
                 "School Campus", "Beautiful aerial view of our green campus", "campus", "2024-01-15"),
    GalleryImage(8, "https://images.unsplash.com/photo-1466442929976-97f336a657be?auto=format&fit=crop&w=600&h=400",
                 "Heritage Day Celebration", "Cultural diversity celebration at our school", "events", "2024-01-30")
  ]

  /** `images.filter(img => img.category === c)`. */
  function ByCategory(images: seq<GalleryImage>, c: string): (r: seq<GalleryImage>)
    ensures |r| <= |images|
    ensures forall i :: 0 <= i < |r| ==> r[i].category == c
  {
    if images == [] then []
    else (if images[0].category == c then [images[0]] else []) + ByCategory(images[1..], c)
  }

  /** The images shown for the selected category: all of them for "all". */
  function FilteredImages(images: seq<GalleryImage>, selected: string): (r: seq<GalleryImage>)
    ensures |r| <= |images|
    ensures selected != All ==> forall i :: 0 <= i < |r| ==> r[i].category == selected
  {
    if selected == All then images else ByCategory(images, selected)
  }

  /** The five filter buttons, in display order. */
  function Categories(images: seq<GalleryImage>): (buttons: seq<CategoryButton>)
    ensures |buttons| == 5 && buttons[0].id == All && buttons[0].count == |images|
    ensures forall k :: 0 <= k < 5 ==> buttons[k].count == |FilteredImages(images, buttons[k].id)|
  {
    [ CategoryButton(All, "All", |images|),
      CategoryButton("academics", "Academics", |ByCategory(images, "academics")|),
      CategoryButton("sports", "Sports", |ByCategory(images, "sports")|),
      CategoryButton("events", "Events", |ByCategory(images, "events")|),
      CategoryButton("campus", "Campus", |ByCategory(images, "campus")|) ]
  }

  /** The "No Images Found" block is rendered exactly when nothing is shown. */
  predicate ShowsEmptyState(images: seq<GalleryImage>, selected: string)
    ensures images == [] ==> ShowsEmptyState(images, selected)
    ensures selected == All ==> (ShowsEmptyState(images, selected) <==> images == [])
  {
    |FilteredImages(images, selected)| == 0
  }

  /** `a` is `b` with some elements left out, the rest in the same order. */
  predicate IsSubsequence<T(==)>(a: seq<T>, b: seq<T>)
    decreases |b|
  {
    if a == [] then true
    else if b == [] then false
    else (a[0] == b[0] && IsSubsequence(a[1..], b[1..])) || IsSubsequence(a, b[1..])
  }

  /** The filter keeps the original order: its result is a subsequence. */
  lemma {:induction false} FilterIsSubsequence(images: seq<GalleryImage>, c: string)
    ensures IsSubsequence(ByCategory(images, c), images)
    decreases |images|
  {
    if images != [] {
      FilterIsSubsequence(images[1..], c);
      var rest := ByCategory(images[1..], c);
      if images[0].category == c {
        assert ByCategory(images, c) == [images[0]] + rest;
        assert ([images[0]] + rest)[1..] == rest;
      } else {
        assert ByCategory(images, c) == rest;
      }
    }
  }

  /** The filter keeps every image of the category, as often as it occurs,
      and nothing else. */
  lemma {:induction false} FilterKeepsExactlyCategory(images: seq<GalleryImage>, c: string, x: GalleryImage)
    ensures multiset(ByCategory(images, c))[x] == if x.category == c then multiset(images)[x] else 0
    decreases |images|
  {
    if images != [] {
      FilterKeepsExactlyCategory(images[1..], c, x);
      assert images == [images[0]] + images[1..];
      assert multiset(images) == multiset([images[0]]) + multiset(images[1..]);
      var head := if images[0].category == c then [images[0]] else [];
      assert multiset(ByCategory(images, c)) == multiset(head) + multiset(ByCategory(images[1..], c));
    }
  }

  /** Selecting a category shows exactly the images whose category it is,
      in gallery order; "all" shows the whole gallery. */
  lemma FilteredImagesSpec(images: seq<GalleryImage>, selected: string, x: GalleryImage)
    ensures selected == All ==> FilteredImages(images, selected) == images
    ensures IsSubsequence(FilteredImages(images, selected), images)
    ensures selected != All ==>
      multiset(FilteredImages(images, selected))[x] == if x.category == selected then multiset(images)[x] else 0
  {
    if selected != All {
      FilterIsSubsequence(images, selected);
      FilterKeepsExactlyCategory(images, selected, x);
    } else {
      SubsequenceOfItself(images);
    }
  }

  lemma {:induction false} SubsequenceOfItself<T>(s: seq<T>)
    ensures IsSubsequence(s, s)
    decreases |s|
  {
    if s != [] {
      SubsequenceOfItself(s[1..]);
    }
  }

  /** The empty state appears exactly when no image has the selected
      category (or, for "all", when the gallery is empty). */
  lemma {:induction false} EmptyStateIff(images: seq<GalleryImage>, selected: string)
    ensures ShowsEmptyState(images, selected) <==>
      if selected == All then images == []
      else forall i :: 0 <= i < |images| ==> images[i].category != selected
    decreases |images|
  {
    if selected != All && images != [] {
      EmptyStateIff(images[1..], selected);
      assert forall i :: 1 <= i < |images| ==> images[i] == images[1..][i - 1];
    }
  }

  /** The number of images in category `c`. */
  function CountOf(images: seq<GalleryImage>, c: string): nat {
    |ByCategory(images, c)|
  }

  /** When every image belongs to one of the four named categories, the four
      category counts add up to the "all" count. */
  lemma {:induction false} CountsAddUp(images: seq<GalleryImage>)
    requires forall i :: 0 <= i < |images| ==> images[i].category in ["academics", "sports", "events", "campus"]
    ensures CountOf(images, "academics") + CountOf(images, "sports") + CountOf(images, "events")
            + CountOf(images, "campus") == |images|
    decreases |images|
  {
    if images != [] {
      assert forall i :: 1 <= i < |images| ==> images[1..][i - 1] == images[i];
      CountsAddUp(images[1..]);
    }
  }

  /** The category of each image, in gallery order. */
  function CategoriesOf(images: seq<GalleryImage>): (cats: seq<string>)
    ensures |cats| == |images|
    ensures forall i :: 0 <= i < |images| ==> cats[i] == images[i].category
  {
    seq(|images|, i requires 0 <= i < |images| => images[i].category)
  }

  /** A category's count is the number of times it occurs among the
      images' categories. */
  lemma {:induction false} CountIsOccurrences(images: seq<GalleryImage>, c: string)
    ensures CountOf(images, c) == multiset(CategoriesOf(images))[c]
    decreases |images|
  {
    if images != [] {
      CountIsOccurrences(images[1..], c);
      var cats := CategoriesOf(images);
      assert cats == [cats[0]] + CategoriesOf(images[1..]);
    }
  }

  /** The categories of the built-in gallery, in order. */
  const SampleCategories: seq<string> :=
    ["academics", "academics", "sports", "academics", "academics", "academics", "campus", "events"]

  lemma SampleCategoriesOf()
    ensures CategoriesOf(GalleryImages) == SampleCategories
  {
  }

  /** Any gallery whose categories are those of the built-in one has its counts. */
  lemma CountsOfSampleCategories(images: seq<GalleryImage>, c: string)
    requires CategoriesOf(images) == SampleCategories
    ensures CountOf(images, c)
            == if c == "academics" then 5 else if c in {"sports", "events", "campus"} then 1 else 0
  {
    CountIsOccurrences(images, c);
  }

  /** The built-in gallery holds five academics images and one each of
      sports, events and campus. */
  lemma SampleGalleryCount(c: string)
    ensures CountOf(GalleryImages, c)
            == if c == "academics" then 5 else if c in {"sports", "events", "campus"} then 1 else 0
  {
    SampleCategoriesOf();
    CountsOfSampleCategories(GalleryImages, c);
  }

  /** No filter button leads to the empty state when every named category
      has at least one image. */
  lemma NoButtonShowsEmptyState(images: seq<GalleryImage>)
    requires images != []
    requires forall c :: c in {"academics", "sports", "events", "campus"} ==> CountOf(images, c) > 0
    ensures forall k :: 0 <= k < 5 ==> !ShowsEmptyState(images, Categories(images)[k].id)
  {
    var buttons := Categories(images);
    forall k | 0 <= k < 5
      ensures !ShowsEmptyState(images, buttons[k].id)
    {
      assert k > 0 ==> buttons[k].count == CountOf(images, buttons[k].id);
    }
  }

  /** With the built-in gallery no button leads to the empty state. */
  lemma SampleGalleryNeverEmpty()
    ensures forall k :: 0 <= k < 5 ==> !ShowsEmptyState(GalleryImages, Categories(GalleryImages)[k].id)
  {
    forall c | c in {"academics", "sports", "events", "campus"}
      ensures CountOf(GalleryImages, c) > 0
    {
      SampleGalleryCount(c);
    }
    NoButtonShowsEmptyState(GalleryImages);
  }

  /** `getCategoryColor`. */
  function CategoryColor(category: string): (classes: string)
    ensures classes == "bg-gray-100 text-gray-800" <==> category !in {"academics", "sports", "events", "campus"}
  {
    match category
    case "academics" => "bg-blue-100 text-blue-800"
    case "sports" => "bg-green-100 text-green-800"
    case "events" => "bg-purple-100 text-purple-800"
    case "campus" => "bg-orange-100 text-orange-800"
    case _ => "bg-gray-100 text-gray-800"
  }

  /** The four named categories get four different colours. */
  lemma CategoryColorsDistinct(a: string, b: string)
    requires a in {"academics", "sports", "events", "campus"} && b in {"academics", "sports", "events", "campus"}
    ensures CategoryColor(a) == CategoryColor(b) <==> a == b
  {
  }

  /** `category.charAt(0).toUpperCase() + category.slice(1)`. */
  function BadgeLabel(category: string): (badge: string)
    ensures |badge| == |category|
    ensures category != "" ==> badge[0] == UpperChar(category[0]) && badge[1..] == category[1..]
  {
    if category == "" then "" else [UpperChar(category[0])] + category[1..]
  }

  /** The badge of each named category reads like its filter button. */
  lemma BadgeMatchesButton(images: seq<GalleryImage>, k: nat)
    requires 1 <= k < 5
    ensures BadgeLabel(Categories(images)[k].id) == Categories(images)[k].caption
  {
    var b := Categories(images)[k];
    if k == 1 {
      assert b.id == "academics" && b.caption == "Academics";
      CapitalisedWord("academics", "Academics");
    } else if k == 2 {
      assert b.id == "sports" && b.caption == "Sports";
      CapitalisedWord("sports", "Sports");
    } else if k == 3 {
      assert b.id == "events" && b.caption == "Events";
      CapitalisedWord("events", "Events");
    } else {
      assert b.id == "campus" && b.caption == "Campus";
      CapitalisedWord("campus", "Campus");
    }
  }

  /** A lower-case word whose capitalised form is `word` gets `word` as its badge. */
  lemma CapitalisedWord(category: string, word: string)
    requires category != [] && |word| == |category|
    requires 'a' <= category[0] <= 'z' && word[0] as int == category[0] as int - 32
    requires word[1..] == category[1..]
    ensures BadgeLabel(category) == word
  {
    assert word == [word[0]] + word[1..];
  }

  /** The page: the images it lists and the selected filter. */
  class SchoolLifePage {
    const images: seq<GalleryImage>
    var selectedCategory: string

    /** The page opens on "all", which lists the whole gallery. */
    constructor ()
      ensures images == GalleryImages && selectedCategory == All
      ensures FilteredImages(images, selectedCategory) == images
    {
      images := GalleryImages;
      selectedCategory := All;
    }

    /** A click on the `k`-th filter button: its category is selected, and
        the number of images then listed is the count on the button. */
    method SelectCategory(k: nat)
      requires k < |Categories(images)|
      modifies this
      ensures selectedCategory == Categories(images)[k].id
      ensures |FilteredImages(images, selectedCategory)| == Categories(images)[k].count
    {
      selectedCategory := Categories(images)[k].id;
    }
  }
}
