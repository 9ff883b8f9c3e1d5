/** The community board: automatic categorisation of a new post (`categorize-post-flow.ts`), the
    new-post dialog and the edit-post dialog. The language model that picks a forum is a
    function parameter, and a write is returned as a value. */
module Community {
  import opened Wrappers

  datatype Forum = Forum(id: string, name: string, description: string)

  datatype CategorizeInput = CategorizeInput(postTitle: string, postContent: string, availableForums: seq<Forum>)

  /** The flow's answer (`None` when the model call fails or returns no output) and whether
      the model was asked for it. */
  datatype Categorized = Categorized(forumId: Option<string>, askedModel: bool)

  /** `categorizePostFlow` (lines 62-77): a single forum is chosen without asking the model;
      otherwise, the empty list included, the model's answer is returned. */
  function CategorizePost(input: CategorizeInput, model: CategorizeInput -> Option<string>): (c: Categorized)
    ensures |input.availableForums| == 1 <==> !c.askedModel
    ensures !c.askedModel ==> c.forumId == Some(input.availableForums[0].id)
    ensures c.askedModel ==> c.forumId == model(input)
  {
    if |input.availableForums| == 1 then Categorized(Some(input.availableForums[0].id), false)
    else Categorized(model(input), true)
  }

  /** With one forum the answer is that forum whatever the model would say. */
  lemma SingleForumIgnoresModel(input: CategorizeInput, m1: CategorizeInput -> Option<string>,
                                m2: CategorizeInput -> Option<string>)
    requires |input.availableForums| == 1
    ensures CategorizePost(input, m1) == CategorizePost(input, m2)
    ensures CategorizePost(input, m1).forumId.value in set f | f in input.availableForums :: f.id
  {
    assert input.availableForums[0] in input.availableForums;
  }

  // ---------------------------------------------------------------- new post

  datatype PostForm = PostForm(title: string, content: string, open: bool, isSubmitting: bool)

  /** The record `addDoc` receives; the server timestamp is left out. */
  datatype PostData = PostData(title: string, content: string, communityForumId: string, userProfileId: string,
                               replies: nat)

  datatype PostOutcome = MissingFields | ForumsUnavailable | CreateFailed | Posted(post: PostData)

  /** One submission: the outcome, the form afterwards, and whether categorisation ran. */
  datatype PostSubmit = PostSubmit(outcome: PostOutcome, after: PostForm, categorized: bool)

  /** `handleSubmit` (new-post-dialog.tsx lines 42-101). Field checks come first, then the forum
      list; only then is the post categorised, and a failed categorisation writes nothing.
      `isSubmitting` ends false on every path, and the form is cleared and closed only after a
      post was written. */
  function SubmitPost(f: PostForm, uid: Option<string>, storeReady: bool, forums: Option<seq<Forum>>,
                      model: CategorizeInput -> Option<string>): (r: PostSubmit)
    ensures !r.after.isSubmitting
    ensures r.outcome == MissingFields <==> f.title == "" || f.content == "" || uid.None? || !storeReady
    ensures r.outcome == ForumsUnavailable <==>
      (f.title != "" && f.content != "" && uid.Some? && storeReady && (forums.None? || forums.value == []))
    ensures r.categorized <==> !r.outcome.MissingFields? && !r.outcome.ForumsUnavailable?
    ensures r.outcome.Posted? ==> (r.after == PostForm("", "", false, false)
      && r.outcome.post.title == f.title && r.outcome.post.content == f.content
      && r.outcome.post.userProfileId == uid.value && r.outcome.post.replies == 0)
    ensures !r.outcome.Posted? ==> r.after == f.(isSubmitting := false)
  {
    if f.title == "" || f.content == "" || uid.None? || !storeReady then
      PostSubmit(MissingFields, f.(isSubmitting := false), false)
    else if forums.None? || forums.value == [] then
      PostSubmit(ForumsUnavailable, f.(isSubmitting := false), false)
    else
      var input := CategorizeInput(f.title, f.content, forums.value);
      var answer := CategorizePost(input, model).forumId;
      if answer.None? then PostSubmit(CreateFailed, f.(isSubmitting := false), true)
      else PostSubmit(Posted(PostData(f.title, f.content, answer.value, uid.value, 0)), PostForm("", "", false, false), true)
  }

  /** A post goes to the forum the categoriser picked: with one forum, that forum. */
  lemma PostedToOnlyForum(f: PostForm, uid: Option<string>, forum: Forum, model: CategorizeInput -> Option<string>)
    requires f.title != "" && f.content != "" && uid.Some?
    ensures SubmitPost(f, uid, true, Some([forum]), model).outcome.Posted?
    ensures SubmitPost(f, uid, true, Some([forum]), model).outcome.post.communityForumId == forum.id
  {
  }

  /** `onOpenChange` (lines 104-107): closing clears the fields. */
  function OnPostDialogOpenChange(f: PostForm, isOpen: bool): (g: PostForm)
    ensures g.open == isOpen && g.isSubmitting == f.isSubmitting
    ensures !isOpen ==> g.title == "" && g.content == ""
    ensures isOpen ==> g.title == f.title && g.content == f.content
  {
    if isOpen then f.(open := true) else PostForm("", "", false, f.isSubmitting)
  }

  // ---------------------------------------------------------------- edit post

  datatype ForumPost = ForumPost(id: string, communityForumId: string, title: string, userProfileId: string,
                                 timestamp: Option<int>, content: string, replies: Option<nat>)

  datatype EditPostForm = EditPostForm(title: string, content: string, open: bool, isSaving: bool)

  /** The patch `updateDoc` receives: exactly the title and the content. */
  datatype PostPatch = PostPatch(postId: string, title: string, content: string)

  datatype PostEdit = PostEdit(patch: Option<PostPatch>, after: EditPostForm)

  /** `handleSubmit` (edit-post-dialog.tsx lines 48-74): an empty field or a missing store gives
      no update and leaves the form as it is; otherwise this post is patched, saving ends and
      the dialog closes. */
  function SubmitPostEdit(post: ForumPost, f: EditPostForm, storeReady: bool): (r: PostEdit)
    ensures r.patch.None? <==> f.title == "" || f.content == "" || !storeReady
    ensures r.patch.None? ==> r.after == f
    ensures r.patch.Some? ==> (r.patch.value == PostPatch(post.id, f.title, f.content)
      && !r.after.isSaving && !r.after.open)
  {
    if f.title == "" || f.content == "" || !storeReady then PostEdit(None, f)
    else PostEdit(Some(PostPatch(post.id, f.title, f.content)), f.(isSaving := false, open := false))
  }

  /** The stored post after a patch is merged into it. */
  function ApplyPatch(post: ForumPost, p: PostPatch): ForumPost
    requires p.postId == post.id
  {
    post.(title := p.title, content := p.content)
  }

  /** An edit changes the title and the content and nothing else of the post. */
  lemma EditTouchesOnlyTitleAndContent(post: ForumPost, f: EditPostForm)
    requires f.title != "" && f.content != ""
    ensures var q := ApplyPatch(post, SubmitPostEdit(post, f, true).patch.value);
      q.id == post.id && q.communityForumId == post.communityForumId && q.userProfileId == post.userProfileId
      && q.timestamp == post.timestamp && q.replies == post.replies
      && q.title == f.title && q.content == f.content
  {
  }

  /** `onOpenChange` with `resetForm` (lines 43-46, 89-93): closing restores the stored title and
      content. */
  function OnEditPostOpenChange(post: ForumPost, f: EditPostForm, isOpen: bool): (g: EditPostForm)
    ensures g.open == isOpen && g.isSaving == f.isSaving
    ensures !isOpen ==> g.title == post.title && g.content == post.content
    ensures isOpen ==> g.title == f.title && g.content == f.content
  {
    if isOpen then f.(open := true) else f.(title := post.title, content := post.content, open := false)
  }
}
