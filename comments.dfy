/**
 * Comments on an article page (ArticlePageController): the comment form,
 * the duplicate rule that turns away a long comment already posted on the
 * page, and the notification sent to the page's earlier commenters before
 * a new comment is stored.
 */
module Comments {
  import opened Common
  import opened Records

  // ---------------------------------------------------------------------
  // The form
  // ---------------------------------------------------------------------

  /** `__FUNCTION__` inside `CommentForm`: the form's name. */
  const FormName: string := "CommentForm"

  /** The session key the submitted data is cached under. */
  const SessionKey: string := "FormData." + FormName + ".data"

  /** The submitted fields. */
  datatype CommentData = CommentData(name: string, email: string, comment: string)

  /** The names of the form's three fields, in order. */
  const FieldNames: seq<string> := ["Name", "Email", "Comment"]

  /** The value a field name reads from submitted data; a name that is not a field reads nothing. */
  function FieldValue(data: CommentData, fieldName: string): (r: Option<string>)
    ensures r.Some? <==> fieldName in FieldNames
  {
    if fieldName == "Name" then Some(data.name)
    else if fieldName == "Email" then Some(data.email)
    else if fieldName == "Comment" then Some(data.comment)
    else None
  }

  /** `Email::class`: the fully qualified class name, not a field name. */
  const EmailClassName: string := "SilverStripe\\Control\\Email\\Email"

  /** `RequiredFields::create('Name', Email::class, 'Comment')`, as written. */
  const RequiredAsWritten: seq<string> := ["Name", EmailClassName, "Comment"]

  /** The evidently intended required fields: all three of the form's fields. */
  const RequiredFieldNames: seq<string> := ["Name", "Email", "Comment"]

  /**
   * The form's validation: every required name that is a field of the form
   * must be filled in, and a filled-in email must pass the email field's
   * own format check (`wellFormed`). A required name that names no field
   * is skipped.
   */
  predicate Validates(required: seq<string>, data: CommentData, wellFormed: string -> bool) {
    (forall r :: r in required && FieldValue(data, r).Some? ==> FieldValue(data, r).value != "") &&
    (data.email != "" ==> wellFormed(data.email))
  }

  /** With `Email::class` in the list, an empty email address passes validation. */
  lemma EmailNotRequiredAsWritten(data: CommentData, wellFormed: string -> bool)
    requires data.name != "" && data.comment != "" && data.email == ""
    ensures Validates(RequiredAsWritten, data, wellFormed)
    ensures !Validates(RequiredFieldNames, data, wellFormed)
  {
    assert FieldValue(data, "Email").Some?;
    assert FieldValue(data, EmailClassName).None? by {
      assert EmailClassName !in FieldNames by {
        assert |EmailClassName| != |"Name"| && |EmailClassName| != |"Email"| && |EmailClassName| != |"Comment"|;
      }
    }
  }

  /** With the three field names required, validation demands all three filled in. */
  lemma RequiredFieldsMeaning(data: CommentData, wellFormed: string -> bool)
    ensures Validates(RequiredFieldNames, data, wellFormed) <==>
      data.name != "" && data.email != "" && data.comment != "" && wellFormed(data.email)
  {
    assert FieldValue(data, "Name") == Some(data.name);
    assert FieldValue(data, "Email") == Some(data.email);
    assert FieldValue(data, "Comment") == Some(data.comment);
  }

  /** A field as shown: its name and its placeholder. */
  datatype FormField = FormField(name: string, placeholder: string)

  /** The form as `CommentForm` returns it. */
  datatype CommentForm = CommentForm(
    name: string,
    fields: seq<FormField>,
    required: seq<string>,
    loaded: Option<CommentData>)

  /**
   * `CommentForm`: the three fields, each with its name and a "*" as
   * placeholder, the required fields, and the data cached in the session
   * loaded back in when there is any.
   */
  function CommentFormOf(session: map<string, CommentData>): (r: CommentForm)
    ensures r.name == FormName && r.required == RequiredAsWritten
    ensures |r.fields| == 3 && forall i :: 0 <= i < 3 ==> r.fields[i].name == FieldNames[i]
    ensures forall i :: 0 <= i < 3 ==> r.fields[i].placeholder == r.fields[i].name + "*"
    ensures r.loaded.Some? <==> SessionKey in session
    ensures r.loaded.Some? ==> r.loaded.value == session[SessionKey]
  {
    var fields := seq(3, i requires 0 <= i < 3 => FormField(FieldNames[i], FieldNames[i] + "*"));
    CommentForm(FormName, fields, RequiredAsWritten,
                if SessionKey in session then Some(session[SessionKey]) else None)
  }

  // ---------------------------------------------------------------------
  // The duplicate rule
  // ---------------------------------------------------------------------

  /** The number of bytes a character takes in UTF-8. */
  function Utf8Width(c: char): nat {
    if c as int < 0x80 then 1 else if c as int < 0x800 then 2 else if c as int < 0x10000 then 3 else 4
  }

  /** PHP's `strlen`: the length in bytes of the UTF-8 text. */
  function StrLen(s: string): (n: nat)
    ensures |s| <= n <= 4 * |s|
  {
    if s == [] then 0 else Utf8Width(s[0]) + StrLen(s[1..])
  }

  /** On ASCII text `strlen` counts characters. */
  lemma {:induction false} StrLenAscii(s: string)
    requires forall i :: 0 <= i < |s| ==> s[i] as int < 0x80
    ensures StrLen(s) == |s|
  {
    if s != [] {
      StrLenAscii(s[1..]);
    }
  }

  /** The minimum length, in bytes, of a comment the duplicate rule turns away. */
  const MinDuplicateLength: nat := 21

  /**
   * A submission is turned away when one of the page's comments already
   * has exactly its text and the text is longer than 20 bytes.
   */
  predicate Rejected(pageComments: seq<ArticleComment>, text: string) {
    (exists c :: c in pageComments && c.comment == text) && StrLen(text) >= MinDuplicateLength
  }

  /** Text no comment on the page has is never turned away. */
  lemma NewTextAccepted(pageComments: seq<ArticleComment>, text: string)
    requires forall c :: c in pageComments ==> c.comment != text
    ensures !Rejected(pageComments, text)
  {
  }

  /** A duplicate of at most 20 bytes is let through. */
  lemma ShortDuplicateAccepted(pageComments: seq<ArticleComment>, text: string)
    requires StrLen(text) <= 20
    ensures !Rejected(pageComments, text)
  {
  }

  /** An ASCII duplicate of more than 20 characters is turned away. */
  lemma LongAsciiDuplicateRejected(pageComments: seq<ArticleComment>, c: ArticleComment)
    requires c in pageComments && |c.comment| > 20
    requires forall i :: 0 <= i < |c.comment| ==> c.comment[i] as int < 0x80
    ensures Rejected(pageComments, c.comment)
  {
    StrLenAscii(c.comment);
  }

  /**
   * The limit counts bytes: a duplicate of seven euro signs, 21 bytes in
   * UTF-8, is turned away although it has only seven characters.
   */
  lemma SevenEuroSignsRejected(pageComments: seq<ArticleComment>, c: ArticleComment)
    requires c in pageComments && c.comment == "€€€€€€€"
    ensures |c.comment| == 7 && Rejected(pageComments, c.comment)
  {
    assert forall i :: 0 <= i < |c.comment| ==> c.comment[i] == '€';
    StrLenUniform(c.comment, '€');
  }

  lemma {:induction false} StrLenUniform(s: string, ch: char)
    requires forall i :: 0 <= i < |s| ==> s[i] == ch
    ensures StrLen(s) == |s| * Utf8Width(ch)
  {
    if s != [] {
      StrLenUniform(s[1..], ch);
    }
  }

  // ---------------------------------------------------------------------
  // The notification
  // ---------------------------------------------------------------------

  const NotifyFrom: string := "admin@one-ring-rentals.com"
  const NotifySubject: string := "New reply to your comment!"
  const NotifyTemplate: string := "Email/article-comment-reply.ss"

  /** A sent email: sender, recipient, subject, template and the template's data. */
  datatype Email = Email(
    from: string,
    to: string,
    subject: string,
    template: string,
    name: string,
    title: string,
    link: string)

  function NotificationTo(to: string, name: string, title: string, link: string): Email {
    Email(NotifyFrom, to, NotifySubject, NotifyTemplate, name, title, link)
  }

  /** An ordered PHP array from strings to strings, as a list of its pairs. */
  type Assoc = seq<(string, string)>

  predicate DistinctKeys(m: Assoc) {
    forall i, j :: 0 <= i < j < |m| ==> m[i].0 != m[j].0
  }

  function Lookup(m: Assoc, k: string): Option<string> {
    if m == [] then None else if m[0].0 == k then Some(m[0].1) else Lookup(m[1..], k)
  }

  lemma {:induction false} LookupFound(m: Assoc, k: string)
    ensures Lookup(m, k).Some? <==> exists i :: 0 <= i < |m| && m[i].0 == k
  {
    if m != [] {
      LookupFound(m[1..], k);
      if m[0].0 != k {
        assert forall i :: 1 <= i < |m| ==> m[i] == m[1..][i - 1];
      }
    }
  }

  lemma {:induction false} LookupAt(m: Assoc, i: int)
    requires DistinctKeys(m) && 0 <= i < |m|
    ensures Lookup(m, m[i].0) == Some(m[i].1)
  {
    if i > 0 {
      LookupAt(m[1..], i - 1);
    }
  }

  /** `$array[$k] = $v`: overwrite the value of an existing key, or add the key at the end. */
  function Put(m: Assoc, k: string, v: string): (r: Assoc)
    ensures |r| <= |m| + 1
  {
    if m == [] then [(k, v)]
    else if m[0].0 == k then [(k, v)] + m[1..]
    else [m[0]] + Put(m[1..], k, v)
  }

  lemma {:induction false} PutFacts(m: Assoc, k: string, v: string)
    requires DistinctKeys(m)
    ensures DistinctKeys(Put(m, k, v))
    ensures Lookup(Put(m, k, v), k) == Some(v)
    ensures forall k' :: k' != k ==> Lookup(Put(m, k, v), k') == Lookup(m, k')
    ensures forall i :: 0 <= i < |Put(m, k, v)| ==> Put(m, k, v)[i].0 == k || exists j :: 0 <= j < |m| && m[j].0 == Put(m, k, v)[i].0
  {
    if m != [] && m[0].0 != k {
      PutFacts(m[1..], k, v);
      var r := Put(m, k, v);
      var rest := Put(m[1..], k, v);
      assert r == [m[0]] + rest;
      forall i | 0 <= i < |rest| ensures rest[i].0 != m[0].0 {
        if rest[i].0 != k {
          var j :| 0 <= j < |m[1..]| && m[1..][j].0 == rest[i].0;
          assert m[j + 1].0 == rest[i].0;
        }
      }
      forall i | 0 <= i < |r| && r[i].0 != k ensures exists j :: 0 <= j < |m| && m[j].0 == r[i].0 {
        if i == 0 {
          assert m[0].0 == r[i].0;
        } else {
          assert r[i] == rest[i - 1];
          var j :| 0 <= j < |m[1..]| && m[1..][j].0 == rest[i - 1].0;
          assert m[j + 1].0 == r[i].0;
        }
      }
    } else if m != [] {
      var r := Put(m, k, v);
      forall i, j | 0 <= i < j < |r| ensures r[i].0 != r[j].0 {
        assert r[j] == m[j];
        if i > 0 {
          assert r[i] == m[i];
        }
      }
      forall k' | k' != k ensures Lookup(r, k') == Lookup(m, k') {
        assert r[1..] == m[1..];
      }
      forall i | 0 <= i < |r| && r[i].0 != k ensures exists j :: 0 <= j < |m| && m[j].0 == r[i].0 {
        assert m[i].0 == r[i].0;
      }
    }
  }

  /** The name of the last comment written from address `e`, if any. */
  function LastName(cs: seq<ArticleComment>, e: string): (r: Option<string>)
    ensures r.Some? <==> exists c :: c in cs && c.email == e
  {
    if cs == [] then None
    else if cs[|cs| - 1].email == e then Some(cs[|cs| - 1].name)
    else
      var r := LastName(cs[..|cs| - 1], e);
      assert forall c :: c in cs ==> c in cs[..|cs| - 1] || c == cs[|cs| - 1];
      r
  }

  /**
   * `$this->Comments()->map("Email")` read as an array: each address once,
   * in the order it first appears, with the name (the comment's title) of
   * the last comment from it.
   */
  function EmailMap(cs: seq<ArticleComment>): Assoc {
    if cs == [] then []
    else Put(EmailMap(cs[..|cs| - 1]), cs[|cs| - 1].email, cs[|cs| - 1].name)
  }

  /** The array holds each address of the comments once, with the name of its last comment. */
  lemma {:induction false} EmailMapFacts(cs: seq<ArticleComment>)
    ensures DistinctKeys(EmailMap(cs))
    ensures forall e :: Lookup(EmailMap(cs), e) == LastName(cs, e)
    ensures |EmailMap(cs)| <= |cs|
  {
    if cs != [] {
      var init := cs[..|cs| - 1];
      EmailMapFacts(init);
      PutFacts(EmailMap(init), cs[|cs| - 1].email, cs[|cs| - 1].name);
    }
  }

  /** The keys of the array are exactly the commenters' addresses. */
  lemma EmailMapKeys(cs: seq<ArticleComment>, e: string)
    ensures (exists i :: 0 <= i < |EmailMap(cs)| && EmailMap(cs)[i].0 == e) <==> exists c :: c in cs && c.email == e
  {
    EmailMapFacts(cs);
    LookupFound(EmailMap(cs), e);
  }

  /** More than one key exactly when two of the comments come from different addresses. */
  lemma EmailMapMoreThanOne(cs: seq<ArticleComment>)
    ensures |EmailMap(cs)| > 1 <==> exists c, d :: c in cs && d in cs && c.email != d.email
  {
    var m := EmailMap(cs);
    EmailMapFacts(cs);
    if |m| > 1 {
      EmailMapKeys(cs, m[0].0);
      EmailMapKeys(cs, m[1].0);
    }
    if exists c, d :: c in cs && d in cs && c.email != d.email {
      var c, d :| c in cs && d in cs && c.email != d.email;
      EmailMapKeys(cs, c.email);
      EmailMapKeys(cs, d.email);
      var i :| 0 <= i < |m| && m[i].0 == c.email;
      var j :| 0 <= j < |m| && m[j].0 == d.email;
      assert i != j;
    }
  }

  /**
   * The notifications for a new comment: one to each address in the
   * array, addressed by the name kept for it, when the array has more
   * than one address, and none otherwise.
   */
  function Notifications(pageComments: seq<ArticleComment>, title: string, link: string): seq<Email> {
    var emails := EmailMap(pageComments);
    if |emails| > 1 then seq(|emails|, i requires 0 <= i < |emails| => NotificationTo(emails[i].0, emails[i].1, title, link))
    else []
  }

  /**
   * Emails go out exactly when the earlier comments come from more than
   * one address; then every such address gets exactly one, naming the
   * author of its latest comment, and nobody else gets one.
   */
  lemma NotificationsFacts(pageComments: seq<ArticleComment>, title: string, link: string)
    ensures var n := Notifications(pageComments, title, link);
      |n| > 0 <==> exists c, d :: c in pageComments && d in pageComments && c.email != d.email
    ensures var n := Notifications(pageComments, title, link);
      forall i :: 0 <= i < |n| ==>
        n[i].from == NotifyFrom && n[i].subject == NotifySubject && n[i].template == NotifyTemplate &&
        n[i].title == title && n[i].link == link
    ensures var n := Notifications(pageComments, title, link);
      forall i, j :: 0 <= i < j < |n| ==> n[i].to != n[j].to
    ensures var n := Notifications(pageComments, title, link);
      forall i :: 0 <= i < |n| ==> LastName(pageComments, n[i].to) == Some(n[i].name)
    ensures var n := Notifications(pageComments, title, link);
      |n| > 0 ==> forall c :: c in pageComments ==> exists i :: 0 <= i < |n| && n[i].to == c.email
  {
    EmailMapMoreThanOne(pageComments);
    NotificationsShape(pageComments, title, link);
    if |EmailMap(pageComments)| > 1 {
      NotificationsDistinct(pageComments, title, link);
      NotificationsNames(pageComments, title, link);
      NotificationsCover(pageComments, title, link);
    }
  }

  /** The notifications are the array's pairs turned into emails, or none. */
  lemma NotificationsShape(pageComments: seq<ArticleComment>, title: string, link: string)
    ensures var m, n := EmailMap(pageComments), Notifications(pageComments, title, link);
      |m| > 1 ==> |n| == |m| && forall i :: 0 <= i < |n| ==> n[i] == NotificationTo(m[i].0, m[i].1, title, link)
    ensures |EmailMap(pageComments)| <= 1 ==> Notifications(pageComments, title, link) == []
  {
  }

  /** No address gets two notifications. */
  lemma NotificationsDistinct(pageComments: seq<ArticleComment>, title: string, link: string)
    requires |EmailMap(pageComments)| > 1
    ensures var n := Notifications(pageComments, title, link);
      forall i, j :: 0 <= i < j < |n| ==> n[i].to != n[j].to
  {
    EmailMapFacts(pageComments);
    NotificationsShape(pageComments, title, link);
  }

  /** Each notification names the author of the latest comment from its address. */
  lemma NotificationsNames(pageComments: seq<ArticleComment>, title: string, link: string)
    requires |EmailMap(pageComments)| > 1
    ensures var n := Notifications(pageComments, title, link);
      forall i :: 0 <= i < |n| ==> LastName(pageComments, n[i].to) == Some(n[i].name)
  {
    var m := EmailMap(pageComments);
    var n := Notifications(pageComments, title, link);
    EmailMapFacts(pageComments);
    NotificationsShape(pageComments, title, link);
    forall i | 0 <= i < |n| ensures LastName(pageComments, n[i].to) == Some(n[i].name) {
      LookupAt(m, i);
    }
  }

  /** Every earlier commenter's address gets a notification. */
  lemma NotificationsCover(pageComments: seq<ArticleComment>, title: string, link: string)
    requires |EmailMap(pageComments)| > 1
    ensures var n := Notifications(pageComments, title, link);
      forall c :: c in pageComments ==> exists i :: 0 <= i < |n| && n[i].to == c.email
  {
    var m := EmailMap(pageComments);
    var n := Notifications(pageComments, title, link);
    NotificationsShape(pageComments, title, link);
    forall c | c in pageComments ensures exists i :: 0 <= i < |n| && n[i].to == c.email {
      EmailMapKeys(pageComments, c.email);
      var i :| 0 <= i < |m| && m[i].0 == c.email;
      assert n[i].to == c.email;
    }
  }

  /** Under the intended rule, earlier comments from one address only send nothing. */
  lemma OneAddressSendsNothing(pageComments: seq<ArticleComment>, e: string, title: string, link: string)
    requires forall c :: c in pageComments ==> c.email == e
    ensures Notifications(pageComments, title, link) == []
  {
    NotificationsFacts(pageComments, title, link);
  }

  // ---------------------------------------------------------------------
  // The notification as the framework's map behaves
  // ---------------------------------------------------------------------

  /**
   * The notifications `notifyOfNewComment` sends with the framework's
   * `Map`: `count()` counts the comments, not the addresses, and `foreach`
   * visits one pair per comment.
   */
  function NotificationsPerComment(pageComments: seq<ArticleComment>, title: string, link: string): seq<Email> {
    if |pageComments| > 1
    then seq(|pageComments|, i requires 0 <= i < |pageComments| =>
           NotificationTo(pageComments[i].email, pageComments[i].name, title, link))
    else []
  }

  /**
   * Two earlier comments from one address: the framework's map sends that
   * address two emails, where one email per distinct address, and only
   * with more than one address, sends none.
   */
  lemma RepeatCommenterEmailedTwice(c: ArticleComment, d: ArticleComment, title: string, link: string)
    requires c.email == d.email
    ensures NotificationsPerComment([c, d], title, link)
            == [NotificationTo(c.email, c.name, title, link), NotificationTo(c.email, d.name, title, link)]
    ensures Notifications([c, d], title, link) == []
  {
    assert [c, d][..1] == [c];
    assert [c][..0] == [];
    assert EmailMap([c]) == [(c.email, c.name)];
    assert Put([(c.email, c.name)], d.email, d.name) == [(d.email, d.name)];
    assert EmailMap([c, d]) == [(c.email, d.name)];
  }

  /**
   * As written, earlier comments from one address only, two or more of
   * them, send that address one email per comment.
   */
  lemma OneAddressEmailedPerComment(pageComments: seq<ArticleComment>, e: string, title: string, link: string)
    requires |pageComments| > 1 && forall c :: c in pageComments ==> c.email == e
    ensures var n := NotificationsPerComment(pageComments, title, link);
      |n| == |pageComments| && forall i :: 0 <= i < |n| ==> n[i].to == e && n[i].name == pageComments[i].name
  {
    var n := NotificationsPerComment(pageComments, title, link);
    forall i | 0 <= i < |n| ensures n[i].to == e {
      assert pageComments[i] in pageComments;
    }
  }

  /** Adding a key the array does not hold appends the pair at the end. */
  lemma {:induction false} PutNew(m: Assoc, k: string, v: string)
    requires forall i :: 0 <= i < |m| ==> m[i].0 != k
    ensures Put(m, k, v) == m + [(k, v)]
  {
    if m != [] {
      PutNew(m[1..], k, v);
      assert m == [m[0]] + m[1..];
    }
  }

  /** Comments from pairwise distinct addresses give one array pair per comment, in order. */
  lemma {:induction false} EmailMapOfDistinct(cs: seq<ArticleComment>)
    requires forall i, j :: 0 <= i < j < |cs| ==> cs[i].email != cs[j].email
    ensures |EmailMap(cs)| == |cs|
    ensures forall i :: 0 <= i < |cs| ==> EmailMap(cs)[i] == (cs[i].email, cs[i].name)
  {
    if cs != [] {
      var init := cs[..|cs| - 1];
      EmailMapOfDistinct(init);
      PutNew(EmailMap(init), cs[|cs| - 1].email, cs[|cs| - 1].name);
    }
  }

  /**
   * Where no two earlier comments share an address, the loop as written
   * sends exactly the intended notifications.
   */
  lemma PerCommentAgreesOnDistinctAddresses(pageComments: seq<ArticleComment>, title: string, link: string)
    requires forall i, j :: 0 <= i < j < |pageComments| ==> pageComments[i].email != pageComments[j].email
    ensures NotificationsPerComment(pageComments, title, link) == Notifications(pageComments, title, link)
  {
    EmailMapOfDistinct(pageComments);
  }

  /** Every email the loop as written sends goes from the site's address to an earlier commenter. */
  lemma PerCommentSentToCommenters(pageComments: seq<ArticleComment>, title: string, link: string)
    ensures SentToCommenters(NotificationsPerComment(pageComments, title, link), pageComments)
  {
    var n := NotificationsPerComment(pageComments, title, link);
    forall m | m in n ensures exists c :: c in pageComments && c.email == m.to {
      var i :| 0 <= i < |n| && n[i] == m;
      assert pageComments[i] in pageComments;
    }
  }

  // ---------------------------------------------------------------------
  // The controller
  // ---------------------------------------------------------------------

  const DuplicateMessage: string := "That comment already exists! Spammer!"
  const ThanksMessage: string := "Thanks for your comment"

  /** A form's session message and its type ("good" or "bad"). */
  datatype FormMessage = FormMessage(text: string, kind: string)

  function OnPage(pageId: int): ArticleComment -> bool {
    (c: ArticleComment) => c.articlePageId == pageId
  }

  function SameText(text: string): ArticleComment -> bool {
    (c: ArticleComment) => c.comment == text
  }

  /** Every email in `outbox` went from the site's address to an author of one of `pageComments`. */
  ghost predicate SentToCommenters(outbox: seq<Email>, pageComments: seq<ArticleComment>) {
    forall m :: m in outbox ==> m.from == NotifyFrom && exists c :: c in pageComments && c.email == m.to
  }

  lemma NotificationsSentToCommenters(pageComments: seq<ArticleComment>, title: string, link: string)
    ensures SentToCommenters(Notifications(pageComments, title, link), pageComments)
  {
    var n := Notifications(pageComments, title, link);
    NotificationsFacts(pageComments, title, link);
    forall m | m in n ensures exists c :: c in pageComments && c.email == m.to {
      var i :| 0 <= i < |n| && n[i] == m;
      assert LastName(pageComments, n[i].to).Some?;
    }
  }

  lemma SentToCommentersAppend(a: seq<Email>, b: seq<Email>, pageComments: seq<ArticleComment>)
    requires SentToCommenters(a, pageComments) && SentToCommenters(b, pageComments)
    ensures SentToCommenters(a + b, pageComments)
  {
  }

  /** Storing one more comment keeps every address sent to among the page's authors. */
  lemma SentToCommentersGrow(outbox: seq<Email>, comments: seq<ArticleComment>, comment: ArticleComment, pageId: int)
    requires SentToCommenters(outbox, Filter(comments, OnPage(pageId)))
    ensures SentToCommenters(outbox, Filter(comments + [comment], OnPage(pageId)))
  {
    FilterAppend(comments, [comment], OnPage(pageId));
    forall m | m in outbox ensures exists c :: c in Filter(comments + [comment], OnPage(pageId)) && c.email == m.to {
      var c :| c in Filter(comments, OnPage(pageId)) && c.email == m.to;
      assert c in Filter(comments + [comment], OnPage(pageId));
    }
  }

  /** The controller's duplicate test finds exactly the rejected submissions. */
  lemma RejectedByFilter(pageComments: seq<ArticleComment>, text: string)
    ensures Rejected(pageComments, text) <==> |Filter(pageComments, SameText(text))| > 0 && StrLen(text) > 20
  {
    var existing := Filter(pageComments, SameText(text));
    if |existing| > 0 {
      assert existing[0] in existing;
    }
    if exists c :: c in pageComments && c.comment == text {
      var c :| c in pageComments && c.comment == text;
      assert c in existing;
    }
  }

  /**
   * ArticlePageController with the state its comment handling reads and
   * writes: the session, the comment table, the mail sent and the form's
   * message.
   */
  class ArticlePageController {
    const pageId: int
    const title: string
    const link: string
    var session: map<string, CommentData>
    var comments: seq<ArticleComment>
    var outbox: seq<Email>
    var message: Option<FormMessage>

    /** `$this->Comments()`: the comments of this page. */
    function PageComments(): seq<ArticleComment>
      reads this
    {
      Filter(comments, OnPage(pageId))
    }

    /** Every email sent went from the site's address to someone who commented on this page. */
    ghost predicate Valid()
      reads this
    {
      SentToCommenters(outbox, PageComments())
    }

    constructor (pageId: int, title: string, link: string, session: map<string, CommentData>, comments: seq<ArticleComment>)
      ensures this.pageId == pageId && this.title == title && this.link == link
      ensures this.session == session && this.comments == comments && outbox == [] && message == None
      ensures Valid()
    {
      this.pageId := pageId;
      this.title := title;
      this.link := link;
      this.session := session;
      this.comments := comments;
      outbox := [];
      message := None;
    }

    /** `CommentForm`. */
    function Form(): (r: CommentForm)
      reads this
      ensures r.loaded.Some? <==> SessionKey in session
      ensures r.loaded.Some? ==> r.loaded.value == session[SessionKey]
    {
      CommentFormOf(session)
    }

    /**
     * `notifyOfNewComment`: with more than one earlier comment, one email
     * per comment, to its address and naming its author.
     */
    method NotifyOfNewComment()
      requires Valid()
      modifies this
      ensures outbox == old(outbox) + NotificationsPerComment(PageComments(), title, link)
      ensures session == old(session) && comments == old(comments) && message == old(message)
      ensures Valid()
    {
      var pageComments := PageComments();
      ghost var sent := NotificationsPerComment(pageComments, title, link);
      if |pageComments| > 1 {
        var i := 0;
        while i < |pageComments|
          invariant 0 <= i <= |pageComments|
          invariant outbox == old(outbox) + sent[..i]
          invariant session == old(session) && comments == old(comments) && message == old(message)
        {
          outbox := outbox + [NotificationTo(pageComments[i].email, pageComments[i].name, title, link)];
          assert sent[..i + 1] == sent[..i] + [sent[i]];
          i := i + 1;
        }
        assert sent[..|pageComments|] == sent;
      } else {
        assert sent == [];
      }
      PerCommentSentToCommenters(pageComments, title, link);
      SentToCommentersAppend(old(outbox), sent, pageComments);
    }

    /**
     * `handleComment`: cache the data in the session; turn the submission
     * away if it repeats a long comment of this page; otherwise notify the
     * earlier commenters, store the comment, clear the cache and thank.
     */
    method HandleComment(data: CommentData)
      requires Valid()
      modifies this
      ensures Rejected(old(PageComments()), data.comment) ==>
        session == old(session)[SessionKey := data] && comments == old(comments) &&
        outbox == old(outbox) && message == Some(FormMessage(DuplicateMessage, "bad"))
      ensures !Rejected(old(PageComments()), data.comment) ==>
        session == old(session) - {SessionKey} &&
        comments == old(comments) + [ArticleComment(pageId, data.name, data.email, data.comment)] &&
        outbox == old(outbox) + NotificationsPerComment(old(PageComments()), title, link) &&
        message == Some(FormMessage(ThanksMessage, "good"))
      ensures Valid()
    {
      ghost var before := PageComments();
      session := session[SessionKey := data];
      RejectedByFilter(before, data.comment);
      var existing := Filter(PageComments(), SameText(data.comment));
      if |existing| > 0 && StrLen(data.comment) > 20 {
        message := Some(FormMessage(DuplicateMessage, "bad"));
        return;
      }
      NotifyOfNewComment();
      assert outbox == old(outbox) + NotificationsPerComment(before, title, link);
      var comment := ArticleComment(pageId, data.name, data.email, data.comment);
      SentToCommentersGrow(outbox, comments, comment, pageId);
      comments := comments + [comment];
      session := session - {SessionKey};
      message := Some(FormMessage(ThanksMessage, "good"));
    }
  }

  /**
   * The first comment on a page is stored and sends no email; so does the
   * second, whose only earlier comment comes from one address. Both the
   * loop as written and the intended rule agree here.
   */
  lemma FirstCommentsSendNothing(pageComments: seq<ArticleComment>, title: string, link: string)
    requires |pageComments| <= 1
    ensures NotificationsPerComment(pageComments, title, link) == []
    ensures Notifications(pageComments, title, link) == []
  {
    EmailMapFacts(pageComments);
  }
}
