/**
 * The blog add-on's two extensions: BlogExtension on the blog holder
 * (`getFeaturedBlogPosts`, `updateGetBlogPosts`, `getBlogFeatured`) and
 * BlogCategoryExtension on a category (`updateGetBlogPosts`). Both narrow
 * a list of posts to the featured ones when the `featured` GET variable of
 * the current request is truthy.
 */
module Blog {
  import opened Common
  import opened Records

  /** The name of the GET variable that switches on the featured view. */
  const FeaturedVar := "featured"
  /** The route parameter that names a category by its URL segment. */
  const CategoryParam := "Category"

  /**
   * The current request: its GET variables and its route parameters; a
   * route parameter the rule did not match is present with no value.
   */
  datatype Request = Request(getVars: map<string, string>, params: map<string, Option<string>>)

  /** The current controller, which may or may not hold a request. */
  datatype Controller = Controller(request: Option<Request>)

  /** `$request->getVar($name)`: null when the variable is absent. */
  function GetVar(request: Request, name: string): (v: Option<string>)
    ensures v.Some? <==> name in request.getVars
    ensures v.Some? ==> v.value == request.getVars[name]
  {
    if name in request.getVars then Some(request.getVars[name]) else None
  }

  /** `isset($parameters[$name])`: present and not null. */
  predicate IsSet(params: map<string, Option<string>>, name: string) {
    name in params && params[name].Some?
  }

  function IsFeatured(): BlogPost -> bool {
    (p: BlogPost) => p.isFeatured
  }

  function ChildOf(ownerId: int): BlogPost -> bool {
    (p: BlogPost) => p.parentId == ownerId
  }

  function InCategory(segment: string): BlogPost -> bool {
    (p: BlogPost) => segment in p.categorySegments
  }

  // ---------------------------------------------------------------------
  // BlogExtension::getFeaturedBlogPosts
  // ---------------------------------------------------------------------

  /**
   * The featured posts of the blog `ownerId`, in the table's order of
   * `all`; when the route names a category, only the posts filed under a
   * category with that URL segment.
   */
  function FeaturedBlogPosts(ownerId: int, request: Request, all: seq<BlogPost>): (r: seq<BlogPost>)
    ensures forall p :: p in r <==>
              p in all && p.parentId == ownerId && p.isFeatured &&
              (IsSet(request.params, CategoryParam) ==> request.params[CategoryParam].value in p.categorySegments)
  {
    var list := Filter(Filter(all, ChildOf(ownerId)), IsFeatured());
    if IsSet(request.params, CategoryParam) then
      Filter(list, InCategory(request.params[CategoryParam].value))
    else
      list
  }

  /** The listing keeps the order of the posts it draws from. */
  lemma FeaturedBlogPostsOrder(ownerId: int, request: Request, all: seq<BlogPost>)
    ensures SubsequenceOf(FeaturedBlogPosts(ownerId, request, all), all)
  {
    var children := Filter(all, ChildOf(ownerId));
    var list := Filter(children, IsFeatured());
    FilterIsSubsequence(all, ChildOf(ownerId));
    FilterIsSubsequence(children, IsFeatured());
    SubsequenceTransitive(list, children, all);
    if IsSet(request.params, CategoryParam) {
      var segment := request.params[CategoryParam].value;
      FilterIsSubsequence(list, InCategory(segment));
      SubsequenceTransitive(Filter(list, InCategory(segment)), list, all);
    }
  }

  /**
   * Without a category in the route the listing is the same as with one
   * that every featured post of the blog is filed under.
   */
  lemma CategoryCoveringAllChangesNothing(ownerId: int, request: Request, all: seq<BlogPost>, segment: string)
    requires !IsSet(request.params, CategoryParam)
    requires forall p :: p in all && p.parentId == ownerId && p.isFeatured ==> segment in p.categorySegments
    ensures FeaturedBlogPosts(ownerId, request.(params := request.params[CategoryParam := Some(segment)]), all)
         == FeaturedBlogPosts(ownerId, request, all)
  {
    var list := Filter(Filter(all, ChildOf(ownerId)), IsFeatured());
    FilterAll(list, InCategory(segment));
  }

  // ---------------------------------------------------------------------
  // The featured view shared by both `updateGetBlogPosts` hooks
  // ---------------------------------------------------------------------

  /**
   * The list the hook leaves behind: the featured subset when the filter
   * value is truthy, the list unchanged otherwise.
   */
  function FeaturedView(posts: seq<BlogPost>, filter: Option<string>): (r: seq<BlogPost>)
    ensures |r| <= |posts|
  {
    if Truthy(filter) then Filter(posts, IsFeatured()) else posts
  }

  /**
   * The featured view keeps the posts' order, holds exactly the featured
   * ones when it applies, and changes nothing when it does not.
   */
  lemma FeaturedViewFacts(posts: seq<BlogPost>, filter: Option<string>)
    ensures SubsequenceOf(FeaturedView(posts, filter), posts)
    ensures Truthy(filter) ==> forall p :: p in FeaturedView(posts, filter) <==> p in posts && p.isFeatured
    ensures !Truthy(filter) ==> FeaturedView(posts, filter) == posts
  {
    FilterIsSubsequence(posts, IsFeatured());
    SubsequenceReflexive(posts);
  }

  /** Applying the featured view twice is the same as applying it once. */
  lemma FeaturedViewIdempotent(posts: seq<BlogPost>, filter: Option<string>)
    ensures FeaturedView(FeaturedView(posts, filter), filter) == FeaturedView(posts, filter)
  {
    if Truthy(filter) {
      FilterAll(Filter(posts, IsFeatured()), IsFeatured());
    }
  }

  /** A list of featured posts only is left as it is. */
  lemma AllFeaturedUnchanged(posts: seq<BlogPost>, filter: Option<string>)
    requires forall p :: p in posts ==> p.isFeatured
    ensures FeaturedView(posts, filter) == posts
  {
    FilterAll(posts, IsFeatured());
  }

  // ---------------------------------------------------------------------
  // BlogExtension::updateGetBlogPosts and getBlogFeatured
  // ---------------------------------------------------------------------

  /**
   * `updateGetBlogPosts(&$posts)` on the blog holder: overwrites the
   * caller's list with its featured view; the returned value is the new
   * content of the by-reference parameter.
   */
  method UpdateGetBlogPosts(request: Request, posts: seq<BlogPost>) returns (newPosts: seq<BlogPost>)
    ensures newPosts == FeaturedView(posts, GetVar(request, FeaturedVar))
  {
    newPosts := posts;
    var filter := GetVar(request, FeaturedVar);
    if Truthy(filter) {
      newPosts := Filter(newPosts, IsFeatured());
    }
  }

  /** `getBlogFeatured()`: true in the featured view, null (never false) otherwise. */
  function BlogFeatured(request: Request): (r: Option<bool>)
    ensures r != Some(false)
  {
    if Truthy(GetVar(request, FeaturedVar)) then Some(true) else None
  }

  /**
   * The template flag and the hook agree: the flag is set exactly when the
   * hook narrows the list to featured posts.
   */
  lemma BlogFeaturedMatchesView(request: Request, posts: seq<BlogPost>)
    ensures BlogFeatured(request) == Some(true) ==>
              FeaturedView(posts, GetVar(request, FeaturedVar)) == Filter(posts, IsFeatured())
    ensures BlogFeatured(request).None? ==> FeaturedView(posts, GetVar(request, FeaturedVar)) == posts
    ensures BlogFeatured(request) == Some(true) <==>
              (FeaturedVar in request.getVars && request.getVars[FeaturedVar] != "" && request.getVars[FeaturedVar] != "0")
  {
  }

  // ---------------------------------------------------------------------
  // BlogCategoryExtension::updateGetBlogPosts
  // ---------------------------------------------------------------------

  /**
   * `updateGetBlogPosts(&$posts)` on a category: the same featured view,
   * guarded against a missing current controller and a controller without
   * a request, in which cases the list is left as it is.
   */
  method CategoryUpdateGetBlogPosts(current: Option<Controller>, posts: seq<BlogPost>) returns (newPosts: seq<BlogPost>)
    ensures current.None? ==> newPosts == posts
    ensures current.Some? && current.value.request.None? ==> newPosts == posts
    ensures current.Some? && current.value.request.Some? ==>
              newPosts == FeaturedView(posts, GetVar(current.value.request.value, FeaturedVar))
  {
    newPosts := posts;
    if current.Some? {
      var request := current.value.request;
      if request.Some? {
        var filter := GetVar(request.value, FeaturedVar);
        if Truthy(filter) {
          newPosts := Filter(newPosts, IsFeatured());
        }
      }
    }
  }
}
