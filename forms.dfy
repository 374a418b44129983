/** `PostForm.clean`: how the free-text "new category" field becomes the name
    and slug of a category, and the category lookup-or-insert (`get_or_create`)
    it performs on the category table. */
module Forms {
  import opened Wrappers
  import opened Models
  import Text

  /** The name looked up (and stored): the entered text, stripped. */
  function CategoryName(newCategory: string): string
  {
    Text.PyStrip(newCategory)
  }

  /** The slug stored with a newly created category: the stripped name,
      lower-cased, with every space replaced by '-'. Only ASCII capitals are
      lower-cased (`Text.LowerChar`). */
  function CategorySlug(newCategory: string): (slug: string)
    ensures |slug| == |CategoryName(newCategory)|
    ensures forall i :: 0 <= i < |slug| ==>
      slug[i] == if CategoryName(newCategory)[i] == ' ' then '-' else Text.LowerChar(CategoryName(newCategory)[i])
    ensures ' ' !in slug
    ensures forall i :: 0 <= i < |slug| ==> !('A' <= slug[i] <= 'Z')
    ensures forall i :: 0 <= i < |slug| && i < |CategoryName(newCategory)| ==>
      (slug[i] == '-' <==> CategoryName(newCategory)[i] in " -")
  {
    var name := CategoryName(newCategory);
    var lower := Text.Lower(name);
    assert forall i :: 0 <= i < |name| ==> (lower[i] == ' ' <==> name[i] == ' ') && (lower[i] == '-' <==> name[i] == '-');
    Text.ReplaceChar(lower, ' ', '-')
  }

  /** Names that differ only in the case of their letters, or in a space
      against a '-', get the same slug: the second of them cannot be inserted
      once the first exists, because slugs are unique. */
  lemma DistinctNamesSameSlug()
    ensures CategoryName("Web Dev") != CategoryName("web-dev")
    ensures CategorySlug("Web Dev") == CategorySlug("web-dev") == "web-dev"
  {
    Text.TrimUnpadded("Web Dev", Text.PyIsSpace);
    Text.TrimUnpadded("web-dev", Text.PyIsSpace);
    assert CategoryName("Web Dev")[0] != CategoryName("web-dev")[0];
    SlugOfWebDev("Web Dev");
    SlugOfWebDev("web-dev");
  }

  lemma SlugOfWebDev(name: string)
    requires name == "Web Dev" || name == "web-dev"
    requires CategoryName(name) == name
    ensures CategorySlug(name) == "web-dev"
  {
    var slug := CategorySlug(name);
    assert |slug| == 7;
    forall i | 0 <= i < 7 ensures slug[i] == "web-dev"[i] {
      assert slug[i] == (if Text.LowerChar(name[i]) == ' ' then '-' else Text.LowerChar(name[i]));
    }
  }

  /** The outcome of `PostForm.clean` on the category table: the category the
      cleaned form holds, the table afterwards, and the next free key. */
  datatype Cleaned = Cleaned(category: Option<CategoryId>, categories: seq<Category>, nextId: nat)

  /** `Category.objects.get_or_create(name=name, defaults={'slug': slug})`: the
      stored category with this name, or a new row keyed `nextId`; `None` when
      the insert hits a taken slug. */
  function GetOrCreate(categories: seq<Category>, nextId: nat, name: string, slug: string): (r: Option<Cleaned>)
    ensures r.Some? ==>
      && r.value.category.Some?
      && exists c :: c in r.value.categories && c.id == r.value.category.value && c.name == name
    ensures r.Some? ==>
      || (r.value.categories == categories && r.value.nextId == nextId)
      || (&& r.value.categories == categories + [Category(nextId, name, slug)]
          && r.value.nextId == nextId + 1
          && CategoryByName(categories, name).None?)
    ensures r.None? <==> CategoryByName(categories, name).None? && SlugTaken(categories, slug)
  {
    match CategoryByName(categories, name)
    case Some(c) => Some(Cleaned(Some(c.id), categories, nextId))
    case None =>
      if SlugTaken(categories, slug) then None
      else
        var created := Category(nextId, name, slug);
        assert created in categories + [created];
        Some(Cleaned(Some(nextId), categories + [created], nextId + 1))
  }

  /** `PostForm.clean`. `selected` is what the category choice field produced,
      `newCategory` the text typed into the "new category" field (a form
      `CharField`, which strips what was typed before `clean` strips it again,
      to the same text), and a new row gets the key `nextId`. `None` is the
      uniqueness violation of an insert whose slug is taken, which
      `get_or_create` re-raises. */
  function ResolveCategory(categories: seq<Category>, nextId: nat, selected: Option<CategoryId>, newCategory: string)
    : (r: Option<Cleaned>)
    ensures CategoryName(newCategory) == "" ==> r == Some(Cleaned(selected, categories, nextId))
    ensures CategoryName(newCategory) != "" && r.Some? ==>
      && r.value.category.Some?
      && exists c :: c in r.value.categories && c.id == r.value.category.value && c.name == CategoryName(newCategory)
    ensures r.Some? ==>
      || (r.value.categories == categories && r.value.nextId == nextId)
      || (&& r.value.categories == categories + [Category(nextId, CategoryName(newCategory), CategorySlug(newCategory))]
          && r.value.nextId == nextId + 1
          && CategoryByName(categories, CategoryName(newCategory)).None?)
    ensures r.None? <==>
      && CategoryName(newCategory) != ""
      && CategoryByName(categories, CategoryName(newCategory)).None?
      && SlugTaken(categories, CategorySlug(newCategory))
  {
    if CategoryName(newCategory) == "" then Some(Cleaned(selected, categories, nextId))
    else GetOrCreate(categories, nextId, CategoryName(newCategory), CategorySlug(newCategory))
  }

  /** `clean` strips the text once and the name strips it again; the second
      strip changes neither the stored name nor the slug. */
  lemma StripTwice(newCategory: string)
    ensures CategoryName(Text.PyStrip(newCategory)) == CategoryName(newCategory)
    ensures CategorySlug(Text.PyStrip(newCategory)) == CategorySlug(newCategory)
  {
    Text.TrimIdempotent(newCategory, Text.PyIsSpace);
  }

  /** The resolution step by step, as `clean` takes it: the stripped text,
      the lookup by name, the slug check, the insert. */
  lemma ResolveSteps(categories: seq<Category>, nextId: nat, selected: Option<CategoryId>, newCategory: string)
    ensures var newCat := Text.PyStrip(newCategory);
      var found := CategoryByName(categories, CategoryName(newCat));
      var r := ResolveCategory(categories, nextId, selected, newCategory);
      && (newCat == "" ==> r == Some(Cleaned(selected, categories, nextId)))
      && (newCat != "" && found.Some? ==> r == Some(Cleaned(Some(found.value.id), categories, nextId)))
      && (newCat != "" && found.None? && SlugTaken(categories, CategorySlug(newCat)) ==> r.None?)
      && (newCat != "" && found.None? && !SlugTaken(categories, CategorySlug(newCat)) ==>
            r == Some(Cleaned(Some(nextId), categories + [Category(nextId, CategoryName(newCat), CategorySlug(newCat))], nextId + 1)))
  {
    StripTwice(newCategory);
  }

  /** Resolution keeps category keys, names and slugs unique, and keeps every
      key below the next free one. */
  lemma ResolveKeepsCategoriesOk(categories: seq<Category>, nextId: nat, selected: Option<CategoryId>, newCategory: string)
    requires CategoriesOk(categories)
    requires forall c :: c in categories ==> c.id < nextId
    ensures var r := ResolveCategory(categories, nextId, selected, newCategory);
      r.Some? ==>
        && CategoriesOk(r.value.categories)
        && nextId <= r.value.nextId
        && (forall c :: c in r.value.categories ==> c.id < r.value.nextId)
        && (forall c :: c in categories ==> c in r.value.categories)
  {
    var r := ResolveCategory(categories, nextId, selected, newCategory);
    if r.Some? && r.value.categories != categories {
      AppendCategoryKeepsOk(categories, Category(nextId, CategoryName(newCategory), CategorySlug(newCategory)), nextId);
    }
  }

  /** A category with the next key, and a name and slug no stored category
      has, keeps keys, names and slugs unique and every key below the next
      one. */
  lemma AppendCategoryKeepsOk(categories: seq<Category>, created: Category, nextId: nat)
    requires CategoriesOk(categories) && forall c :: c in categories ==> c.id < nextId
    requires created.id == nextId
    requires forall c :: c in categories ==> c.name != created.name && c.slug != created.slug
    ensures CategoriesOk(categories + [created])
    ensures forall c :: c in categories + [created] ==> c.id < nextId + 1
    ensures forall c :: c in categories ==> c in categories + [created]
  {
    var t := categories + [created];
    forall i, j | 0 <= i < j < |t|
      ensures t[i].id != t[j].id && t[i].name != t[j].name && t[i].slug != t[j].slug
    {
      if j == |categories| {
        assert t[i] in categories;
      } else {
        assert t[i] == categories[i] && t[j] == categories[j];
      }
    }
  }

  /** Resolving the same text again, against the table the first resolution
      left, finds the same category and changes nothing: `get_or_create` is
      idempotent. */
  lemma ResolveIdempotent(categories: seq<Category>, nextId: nat, selected: Option<CategoryId>,
                          newCategory: string, nextId2: nat, selected2: Option<CategoryId>)
    requires CategoriesOk(categories)
    requires forall c :: c in categories ==> c.id < nextId
    requires ResolveCategory(categories, nextId, selected, newCategory).Some?
    requires CategoryName(newCategory) != ""
    ensures var r := ResolveCategory(categories, nextId, selected, newCategory).value;
      ResolveCategory(r.categories, nextId2, selected2, newCategory) == Some(Cleaned(r.category, r.categories, nextId2))
  {
    var r := ResolveCategory(categories, nextId, selected, newCategory).value;
    ResolveKeepsCategoriesOk(categories, nextId, selected, newCategory);
    var c :| c in r.categories && c.id == r.category.value && c.name == CategoryName(newCategory);
    CategoryByNameFinds(r.categories, c);
  }
}
