/** The pre-save hook on posts (src/blog/signals.py): a post saved without a
    slug gets one made from its title. `slugify` is a parameter: the model does
    not fix how titles become slugs. */
module Signals {
  import Blog

  /** The slug a post is saved with, given its slug and title before the hook. */
  function PreSaveSlug(slug: string, title: string, slugify: string -> string): string
  {
    if slug == "" then slugify(title) else slug
  }

  /** `store_pre_save`: fills an empty slug of the instance, touching no other field. */
  method StorePreSave(instance: Blog.PostInstance, slugify: string -> string)
    modifies instance`slug
    ensures instance.slug == PreSaveSlug(old(instance.slug), old(instance.title), slugify)
  {
    if instance.slug == "" {
      instance.slug := slugify(instance.title);
    }
  }

  /** Running the hook a second time changes nothing. */
  lemma PreSaveSlugIdempotent(slug: string, title: string, slugify: string -> string)
    ensures PreSaveSlug(PreSaveSlug(slug, title, slugify), title, slugify) == PreSaveSlug(slug, title, slugify)
  {
  }

  /** The hook applied twice to one instance leaves it as applying it once does. */
  method StorePreSaveTwice(instance: Blog.PostInstance, slugify: string -> string)
    modifies instance`slug
    ensures instance.slug == PreSaveSlug(old(instance.slug), old(instance.title), slugify)
  {
    StorePreSave(instance, slugify);
    StorePreSave(instance, slugify);
    PreSaveSlugIdempotent(old(instance.slug), old(instance.title), slugify);
  }
}
