/**
 * The database rows the core reads, as values. Only the columns the core
 * filters, sorts or copies are kept.
 */
module Records {
  import opened Common
  import opened Dates

  /**
   * A rental property. Prices are whole currency units; a missing
   * availability date is NULL in the database and fails every comparison.
   */
  datatype Property = Property(
    id: int,
    title: string,
    pricePerNight: int,
    bedrooms: int,
    bathrooms: int,
    featuredOnHomepage: bool,
    availableStart: Option<Date>,
    availableEnd: Option<Date>)

  /** An article page: its holder (ParentID), publish Date, creation time, tags and region. */
  datatype Article = Article(
    id: int,
    parentId: int,
    date: Date,
    created: int,
    categoryIds: set<int>,
    regionId: int)

  /** A stored comment row, linked to one article page. */
  datatype ArticleComment = ArticleComment(
    articlePageId: int,
    name: string,
    email: string,
    comment: string)

  /** A blog post of the blog module, with the URL segments of its categories. */
  datatype BlogPost = BlogPost(
    id: int,
    parentId: int,
    isFeatured: bool,
    categorySegments: set<string>)
}
