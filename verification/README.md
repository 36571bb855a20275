# GEPEFE site: the decision rules of the front end

The GEPEFE site is the public library of a school physical-education
research group (Grupo de Estudos e Pesquisas em Educação Física e Escola). It
is a React front end over a hosted database, file storage and sign-in
service. There is no algorithm at its centre. Instead, its pages and hooks
are full of small decisions, and this project states each of them as a
total Dafny function over records, strings and sequences, then proves what
it promises. The decisions are:

- which articles and news items a listing shows for a search and a
  category;
- how the editors turn comma-separated author and tag text into lists and
  back;
- which uploads the editors accept;
- what a save writes;
- how the favourites list changes;
- what the administration page counts;
- how the signed-in user's role, name and menu links are derived;
- where the password-reset and e-mail confirmation pages lead.

Every call to the database, storage or sign-in service is replaced by its
result, passed in as a parameter:

- an error or not;
- the rows or user returned;
- the public address storage would give a path.

The JavaScript semantics the components rely on are modelled explicitly in
module `Js`:

- truthiness of `null`/`""`/`0`;
- `||` fallbacks;
- `split` on one character, so that `"".split(",")` is `[""]`;
- `join`, `trim`, `toLowerCase` and `includes`;
- `replace` of the first occurrence;
- UTF-16 `length`.

The modules follow the source files:

| module | file | source |
|---|---|---|
| `Js` | js.dfy | JavaScript string and value primitives |
| `Articles` | articles.dfy | the article record, search predicates, order-preserving `filter`, list reloads |
| `CommaList` | comma_list.dfy | the split / trim / drop-empty parse of the editors and its round trip |
| `Listings` | listings.dfy | Todos, Index, Pesquisas, Teses, Favoritos, ArtigosCompletos, Dissertacoes |
| `Forms` | forms.dfy | upload validators of both editors |
| `ArticleForm` | article_form.dfy | ArticleForm prefill, row construction and submit |
| `News`, `NewsForm` | news.dfy, news_form.dfy | Noticias search, NewsCard, NewsForm |
| `Favorites` | favorites.dfy | useFavorites |
| `ArticleFiles` | article_files.dfy | ArticleDetail and ArticleViewer |
| `Admin` | admin.dfy | Admin |
| `Auth`, `ResetPassword`, `EmailConfirmation` | auth.dfy, reset_password.dfy, email_confirmation.dfy | useAuth and the two auth pages |
| `Navigation`, `Profile`, `Sidebar` | navigation.dfy, profile.dfy, sidebar.dfy | Navigation, Profile, AppSidebar |

## Model

| member | source | states |
|---|---|---|
| CommaList.Parse | src/components/ArticleForm.tsx:150-152 | every parsed author or tag is non-empty, trimmed and comma-free; text without a comma gives one trimmed entry, or none when it is blank |
| CommaList.ParseConcat | src/components/ArticleForm.tsx:150-152 | every comma separates: the entries of `a,b` are the entries of `a` followed by those of `b`, in the typed order; with the comma-free case this fixes the parse of every text |
| CommaList.ParseFormat | src/components/ArticleForm.tsx:67-72 | a list of such entries joined with ", " for editing parses back to the same list in the same order |
| CommaList.ParseNormalizes | src/components/ArticleForm.tsx:148-152 | whatever was typed, showing the saved list again and re-saving it saves the same list |
| Forms.CheckDocument | src/components/ArticleForm.tsx:81-99 | a document is accepted iff its type is exactly PDF, DOC or DOCX and it is at most 10 MiB; the wrong type is reported in preference to the size |
| Forms.SelectDocument | src/components/ArticleForm.tsx:77-103 | an accepted file replaces the selection; no file or a rejected file leaves the selection as it was, and a rejection is reported iff the file was refused |
| Forms.CheckImage | src/components/NewsForm.tsx:62-80 | an image is accepted iff its type starts with "image/" and it is at most 5 MiB; type is checked first |
| Forms.SelectImage | src/components/NewsForm.tsx:58-83 | the image selection changes only to an accepted file |
| ArticleForm.Prefill | src/components/ArticleForm.tsx:58-75 | the group switch is on iff the authors are exactly the group's name, and the author box is then empty; otherwise authors and tags show as text that parses back to the stored lists; an empty or missing link shows as "" |
| ArticleForm.SavedAuthors | src/components/ArticleForm.tsx:146-150 | with the switch on, the saved authors are the group's name alone whatever was typed; otherwise they are the entries parsed from the typed text |
| ArticleForm.ArticleData | src/components/ArticleForm.tsx:166-177 | title, abstract, category and date are the form's; authors and tags are parsed from the form; an empty link is stored as null; each of path, size and type comes from the new upload when that value is truthy, otherwise from the edited article (null when empty or zero), otherwise null; so no empty text or zero size is ever stored |
| ArticleForm.SaveUnchangedKeepsArticle | src/components/ArticleForm.tsx:166-177 | opening an article in the editor and saving it untouched writes back exactly the stored article |
| ArticleForm.Submit | src/components/ArticleForm.tsx:142-234 | a failed upload aborts before any write or removal; the row written is the form's article data with the new upload, if any; an edit updates by id and a creation inserts with the user as creator; the old file is removed iff an edit uploads a new file over a stored one; the submit succeeds iff the write does |
| ArticleForm.FailedUpdateRemovesReferencedFile | src/components/ArticleForm.tsx:179-191 | as written, an edit with a new file whose update fails still removes the old file that the stored row keeps naming |
| ArticleForm.SubmitCorrected | src/components/ArticleForm.tsx:179-191 | the submit with the old file removed only after a successful update; write and outcome are those of the submit as written |
| NewsForm.ListText | src/components/NewsForm.tsx:50-53 | a stored list shows as text that parses back to it; a missing list shows as "" |
| NewsForm.Prefill | src/components/NewsForm.tsx:44-56 | missing text fields show as "", a missing date as today's, and the author and tag lists read back as themselves |
| NewsForm.NewsData | src/components/NewsForm.tsx:141-152 | a saved news row has the form's title, content and date, the given image address, authors and tags parsed from the form, content type "news", category "Notícias", and the summary as abstract |
| NewsForm.ErrorMessage | src/components/NewsForm.tsx:193 | the error toast never shows an empty message and shows the error's own when it has one |
| NewsForm.Submit | src/components/NewsForm.tsx:111-199 | a selected image that fails to upload fails the submit before any write, and an uploaded one replaces the typed address; the row written is the form's news data with that address; update iff the item has an id; creation needs a signed-in user; a failed write shows the error's own message, and every failure has a non-empty message |
| NewsForm.SaveUnchangedKeepsNews | src/components/NewsForm.tsx:141-161 | opening a stored news item and saving it untouched updates the same item with the same text, date, image and lists |
| News.Noticias | src/pages/Noticias.tsx:46-57 | the news list is an order-preserving selection of exactly the items the search matches, and everything for the empty query |
| News.NoticiasIsSearch | src/pages/Noticias.tsx:46-57 | the empty-query shortcut changes nothing: the listing is the plain search |
| News.MissingSummaryIsEmpty | src/pages/Noticias.tsx:52-53 | for a non-empty query a missing summary matches exactly as an empty one would, that is never |
| News.Card | src/components/NewsCard.tsx:27-84 | link "/noticia/" + id; the image or the placeholder; the summary and author line only when present; the first min(3, n) tags as badges, plus a "+(n-3)" badge iff there are more than three, so every tag is shown or counted |
| Articles.EmptyQueryMatches | src/pages/Todos.tsx:16-20 | the empty query matches every article, with or without tags |
| Articles.LoweredQueryMatchesAlike | src/pages/Index.tsx:31-33 | lower-casing the query before matching does not change the match |
| Articles.Filter | src/pages/Todos.tsx:15 | `filter` keeps only elements satisfying the condition, keeps every one that does, and keeps the list's order |
| Articles.FilterCounts | src/pages/Todos.tsx:15 | `filter` keeps each satisfying element exactly as often as it occurs in the list, and no other element |
| Articles.FilterTwice | src/pages/Index.tsx:26-33 | filtering by one condition and then another is filtering once by both |
| Articles.Reloaded | src/pages/Admin.tsx:66-74 | a failed load keeps the shown list; a successful one shows the rows returned, or nothing |
| Listings.Todos | src/pages/Todos.tsx:14-26 | Todos lists, in order, exactly the articles of the chosen category (any for "Todos") that match the search over title, authors, abstract and tags, and all of them for the exact empty query |
| Listings.TodosUnfilteredListsAll | src/pages/Todos.tsx:16-22 | no query and "Todos" list every article |
| Listings.AsRouted | src/components/Navigation.tsx:19-24 | with the top bar calling no page handler, Todos and the home page list every article and Pesquisas every "Pesquisas" article |
| Listings.CountLabel | src/pages/Todos.tsx:93 | the count line is singular exactly for one result |
| Listings.IndexIsOneFilter | src/pages/Index.tsx:22-35 | the home page's category stage then search stage is one filter by both conditions, the search counting only for a non-blank query |
| Listings.IndexSelects | src/pages/Index.tsx:22-35 | the home page lists, in order, exactly the articles of the category matching a non-blank query |
| Listings.IndexAgreesWithTodos | src/pages/Index.tsx:31-33 | the home page and Todos list the same articles for every query that is not a non-empty blank one |
| Listings.IndexIgnoresBlankQuery | src/pages/Index.tsx:31-33 | for a non-empty blank query the home page lists what Todos lists for the empty one |
| Listings.BlankQueryWitness | src/pages/Todos.tsx:16 | for the query " " Todos searches for the space literally and the home page does not, so the two differ |
| Listings.IndexPreview | src/pages/Index.tsx:81-86 | the home page shows the first six results at most, and the "Mostrando 6 de n" notice with the full count iff there are more than six |
| Listings.Pesquisas | src/pages/Pesquisas.tsx:12-23 | Pesquisas lists only "Pesquisas" articles that match the query, in order |
| Listings.PesquisasIsTodosFixed | src/pages/Pesquisas.tsx:13-22 | Pesquisas is Todos with the category fixed to "Pesquisas" |
| Listings.PesquisasEmptyQuery | src/pages/Pesquisas.tsx:14-15 | the empty query lists exactly the "Pesquisas" articles |
| Listings.Teses | src/pages/Teses.tsx:20-32 | Teses lists only "Teses" articles that match the query, in order |
| Listings.TesesIgnoresSelectedCategory | src/pages/Teses.tsx:20-32 | the category held by the shared search context never changes the Teses list |
| Listings.Favoritos | src/pages/Favoritos.tsx:68-74 | the favourites page lists, in article order, exactly the favourited articles whose title, authors or abstract match |
| Listings.FavoritosPage | src/pages/Favoritos.tsx:43-74 | without a user no list is computed |
| Listings.FavoritosEmptyQuery | src/pages/Favoritos.tsx:68-74 | the empty query lists exactly the favourited articles |
| Listings.FavoritosIgnoresTags | src/pages/Favoritos.tsx:70-73 | a favourite matching only by a tag is left out, where Todos lists it |
| Listings.PageSearch | src/pages/ArtigosCompletos.tsx:18-26 | the page search lists, in order, exactly the page's own category articles whose title, authors or abstract match |
| Listings.PageSearchEmptyQuery | src/pages/ArtigosCompletos.tsx:19-24 | searching for "" lists the whole category |
| Listings.PageCategoryFilter | src/pages/ArtigosCompletos.tsx:28-34 | "Todos" lists the page's own category, any other category lists that category |
| Listings.PageTodosRestores | src/pages/ArtigosCompletos.tsx:28-34 | choosing "Todos" gives what the empty search gives |
| Listings.ArtigosInitial | src/pages/ArtigosCompletos.tsx:12-16 | the list is set to the "Artigos Completos" articles only once articles have loaded |
| Listings.ArtigosTodosRestoresInitial | src/pages/ArtigosCompletos.tsx:28-30 | once loaded, "Todos" brings back the initial list |
| Listings.DissertacoesInitial | src/pages/Dissertacoes.tsx:8-10 | of the six static articles only the fifth is a dissertation, and it alone starts the list |
| Listings.MockCategories | src/data/articles.ts:3-71 | the static list has six articles, and the fifth is the only one in "Dissertações" |
| Listings.DissertacoesResets | src/pages/Dissertacoes.tsx:12-28 | the empty search and "Todos" both give the initial list back |
| Favorites.Fetch | src/hooks/useFavorites.ts:10-32 | no user or a failed load gives no favourites; otherwise the ids returned |
| Favorites.Toggle | src/hooks/useFavorites.ts:34-81 | without a user nothing is requested and the list stays; a listed id is deleted and an unlisted one inserted; on success an unlisted id is appended at the end, a listed one is filtered out with the rest kept in order, so membership of that id flips and no other id changes; a failure keeps the list |
| Favorites.ToggleOnLatest | src/hooks/useFavorites.ts:44-68 | the request and notice are decided on the rendered list, the removal or append applies to the latest list, and with equal lists this is the one-at-a-time toggle |
| Favorites.OverlappingAddsRepeat | src/hooks/useFavorites.ts:44-68 | two overlapping clicks on an unlisted article both send the same insert, and when both succeed the id is listed twice |
| Favorites.ToggleKeepsDistinct | src/hooks/useFavorites.ts:56-68 | toggling one at a time keeps a duplicate-free list duplicate-free |
| Favorites.ToggleTwiceRestores | src/hooks/useFavorites.ts:56-68 | adding an unlisted id and removing it again gives back the exact list |
| ArticleFiles.Find | src/pages/ArticleDetail.tsx:23 | the article found is the first with the id, and none is found iff no article has it |
| ArticleFiles.Detail | src/pages/ArticleDetail.tsx:101-132 | a spinner while loading, then the article with the address's id or "not found" iff there is none |
| ArticleFiles.FileUrl | src/pages/ArticleDetail.tsx:25-35 | an uploaded file's public address takes priority over the external link |
| ArticleFiles.OpenExternal | src/pages/ArticleDetail.tsx:73-78 | the open button opens the file address iff it is truthy |
| ArticleFiles.OpenExternalIffHasFile | src/pages/ArticleDetail.tsx:135 | when storage addresses are non-empty, opening does something iff the article has a file |
| ArticleFiles.Extension | src/pages/ArticleDetail.tsx:53 | the download extension is never empty and has no slash; "pdf" without a file type |
| ArticleFiles.ExtensionOfType | src/pages/ArticleDetail.tsx:53 | a type `a/b` gives extension `b`, and a type without a slash gives "pdf" |
| ArticleFiles.DownloadName | src/components/ArticleViewer.tsx:49 | the saved file name is the title, a dot and the extension |
| ArticleFiles.DownloadAction | src/pages/ArticleDetail.tsx:37-71 | an uploaded file is saved under its name and the count raised by one, only if the fetch succeeded; otherwise an external link is opened without touching the count; with neither, nothing happens |
| ArticleFiles.DownloadIffHasFile | src/components/ArticleViewer.tsx:37-63 | download acts iff the article has a file, and an external link it opens is the file address |
| ArticleFiles.WordDownloadNames | src/pages/ArticleDetail.tsx:53 | as written, a DOC file downloads with extension "msword"; a PDF with "pdf" |
| ArticleFiles.ConventionalExtension | src/pages/ArticleDetail.tsx:53 | the accepted PDF, DOC and DOCX types get "pdf", "doc" and "docx"; every other type keeps the extension as written |
| ArticleFiles.PreviewRules | src/components/ArticleViewer.tsx:77 | whenever the article page loads a preview the viewer does too, and they differ exactly on articles with only an external link |
| ArticleFiles.UploadedPdfIsPdf | src/pages/ArticleDetail.tsx:134 | an uploaded PDF carries the PDF badge |
| ArticleFiles.StripMarks | src/pages/ArticleDetail.tsx:182 | each name is kept whole when it has no " (GEPEFE)" mark, and otherwise loses exactly its first mark: the text before it followed by the text after it |
| ArticleFiles.MarkedNameLosesFirstMark | src/pages/ArticleDetail.tsx:182 | every marked name has a first mark, and that is the one removed |
| ArticleFiles.AuthorDisplay | src/pages/ArticleDetail.tsx:166-191 | collective iff the authors are exactly the group's name; else member style iff some author carries the mark, shown with the marks removed; else the plain ", " join |
| ArticleFiles.UnmarkedNamesUnchanged | src/pages/ArticleDetail.tsx:177-190 | without marks the member text and the plain text coincide |
| Admin.GuardRedirect | src/pages/Admin.tsx:38-47 | a visitor without a session user is sent to "/auth"; any signed-in user stays, whatever the role |
| Admin.AuthChangeRedirect | src/pages/Admin.tsx:51-55 | a sign-out event or a session without a user sends the visitor to "/auth" |
| Admin.CategoryCount | src/pages/Admin.tsx:179-187 | a category count equals the number of articles in the category, counted one by one; it never exceeds the total and is zero iff no article has the category |
| Admin.CountsWithinTotal | src/pages/Admin.tsx:172-187 | two different category counts together never exceed the total |
| Admin.SumDownloadsAppend | src/pages/Admin.tsx:195 | the download total of a list is the sum of the totals of its parts |
| Admin.SumDownloadsBounds | src/pages/Admin.tsx:195 | with no negative counter the total is at least any article's count |
| Admin.TotalDownloads | src/pages/Admin.tsx:195 | the accumulated total is the left-to-right sum of the download counts |
| Admin.Stats | src/pages/Admin.tsx:168-199 | the figures: total is the list's length, full papers and research are the numbers of "Artigos Completos" and "Pesquisas" articles and together never exceed the total, downloads is the sum |
| Admin.New | src/pages/Admin.tsx:203 | the new-publication button opens the editor without changing which article it holds, so after a cancel or a save it opens empty; the list is kept |
| Admin.Edit | src/pages/Admin.tsx:81-84 | editing opens the form on that article and keeps the list |
| Admin.Cancel | src/pages/Admin.tsx:121-124 | cancelling closes the form and keeps the list |
| Admin.FormSuccess | src/pages/Admin.tsx:115-119 | a saved form closes the editor and reloads the list |
| Admin.FailedReloadIsCancel | src/pages/Admin.tsx:115-124 | a save whose reload fails leaves the page as a cancel does |
| Admin.Delete | src/pages/Admin.tsx:86-113 | nothing is deleted unless confirmed; a failed delete keeps the list; a successful one reloads it; the editor is untouched |
| Auth.ResolveRole | src/hooks/useAuth.ts:11-29 | the role is the profile's when truthy, else "member", and "member" on any read error |
| Auth.ProfileLoaded | src/hooks/useAuth.ts:19-24 | after the profile read the user is an admin iff the profile's role is exactly "admin" |
| Auth.OnAuthEvent | src/hooks/useAuth.ts:33-49 | the user follows the session, the profile is read for a user, the role is cleared without one, and loading ends |
| Auth.OnInitialSession | src/hooks/useAuth.ts:52-61 | the start-up session sets the user and ends loading but never clears the role |
| Auth.SessionHandlersAgree | src/hooks/useAuth.ts:38-58 | the two session handlers differ only in clearing the role when there is no user |
| Auth.SignOut | src/hooks/useAuth.ts:66-87 | sign-out clears user and role and always reports success |
| Auth.AdminAfterSignIn | src/hooks/useAuth.ts:94 | after sign-in and profile read the user is an admin iff the profile says "admin"; after sign-out never |
| Auth.RoleHome | src/pages/EmailConfirmation.tsx:38-44 | a confirmed sign-in lands on "/admin" iff the profile role is "admin", else on "/" |
| ResetPassword.Gate | src/pages/ResetPassword.tsx:25-36 | the form is shown iff there is a session; without one the page goes to "/auth" |
| ResetPassword.Submit | src/pages/ResetPassword.tsx:42-93 | different entries are a mismatch, then fewer than six UTF-16 units is too short; only valid input sends that password; success iff the update succeeds and leads to "/profile"; failures carry a non-empty message |
| ResetPassword.MismatchReportedFirst | src/pages/ResetPassword.tsx:46-64 | entries that differ are reported as a mismatch, and nothing is sent, even when both are too short |
| ResetPassword.AstralCharactersCountTwice | src/pages/ResetPassword.tsx:56 | three characters beyond the Basic Multilingual Plane count as six and pass |
| EmailConfirmation.ChosenExchange | src/pages/EmailConfirmation.tsx:23-91 | an existing session makes no exchange; a token pair sets the session; otherwise a token hash with its type verifies it |
| EmailConfirmation.Confirm | src/pages/EmailConfirmation.tsx:17-140 | confirmed iff a user is known; a confirmed user lands by role; an exchange error is shown, never empty, with no redirect; an exchange that returns no user shows nothing and goes nowhere; a link with nothing usable goes to "/" |
| EmailConfirmation.TokenPairWins | src/pages/EmailConfirmation.tsx:55-91 | a link with both a token pair and a token hash uses the token pair |
| Navigation.EmailName | src/components/Navigation.tsx:49 | the e-mail name is the part of the address before the first "@" when that part is non-empty, and "Usuário" when there is no address or it starts with "@" |
| Navigation.ShortName | src/components/Navigation.tsx:44-50 | the top bar's name is the first space-separated word of the display name (the prefix up to the first space), or the e-mail name without a display name |
| Navigation.ButtonLabel | src/components/Navigation.tsx:158 | the user button is never blank |
| Navigation.LeadingSpaceShowsAnonymous | src/components/Navigation.tsx:44-47 | a display name starting with a space has an empty first word, so the button shows "Usuário" |
| Navigation.AtMostOneActive | src/components/Navigation.tsx:98 | at most one category button is highlighted |
| Navigation.AccountLinks | src/components/Navigation.tsx:137-194 | favourites, profile and sign-out iff signed in; the admin panel iff signed in and admin; sign-in iff not signed in |
| Profile.Redirect | src/pages/Profile.tsx:17-19 | once loading is over, no user means going to "/auth" |
| Profile.FullName | src/pages/Profile.tsx:30-34 | the profile shows the whole display name, or the e-mail name, never empty |
| Profile.ShortNameBeginsFullName | src/pages/Profile.tsx:30-34 | the top bar's name is a prefix of the profile's name, and equal to it for a one-word name |
| Profile.RoleLabel | src/pages/Profile.tsx:86 | "Administrador" iff the role is "admin", that is iff a confirmed sign-in lands on "/admin"; else "Membro" |
| Profile.ShortcutMatchesIsAdmin | src/pages/Profile.tsx:125 | the admin shortcut is offered iff the hook calls the user an admin |
| Sidebar.IsActive | src/components/AppSidebar.tsx:73-77 | both branches of the rule come down to the address equalling the entry's path |
| Sidebar.IsExpanded | src/components/AppSidebar.tsx:79 | the menu group is expanded iff some entry's path is the address |
| Sidebar.ExpandedOnEveryEntry | src/components/AppSidebar.tsx:25-79 | the group is expanded on the home page and on every category page |
| Sidebar.NavClassName | src/components/AppSidebar.tsx:81-86 | the highlighted classes iff the entry is active, the plain ones otherwise |
| Sidebar.CategoryClick | src/components/AppSidebar.tsx:88-93 | a click reports the category name iff the page listens and the entry is not the home page |
| Sidebar.ReportedCategoryIsTransient | src/components/AppSidebar.tsx:88-115 | on the home page and Todos, a reported category belongs to an entry linking to another page, or is "Todos" on the Todos page |

## Left out

- Backend calls: queries, inserts, updates and deletes on the tables, storage upload, download, removal and public addresses, and the sign-in service. Each is a result parameter: an error flag or message, the rows, the user, or a function from path to address.
- The realtime subscription and reload plumbing of the articles context and hook. They only refetch on change.
- React scheduling and timers: the delays before redirects, the deferred profile read, and the loading and uploading flags. Every modelled path ends with loading off. Also left out are object URLs and the anchor click of a download, sharing and the clipboard, and the news carousel.
- Random storage names: the upload names built from the clock and `Math.random`. The error-path cleanup in the article editor is left out too: it removes a freshly generated random name, never the uploaded file, so the model performs no removal on that path.
- Date formatting, the megabyte display and the NewsForm's computation of today's date. Today's date is a parameter of `NewsForm.Prefill`.
- Unicode case mapping and white space: `toLowerCase` maps only A-Z and `trim` removes only ASCII white space. JavaScript maps and trims the full Unicode repertoire. `Listings.Index` and `Listings.Todos` therefore agree with the source only on ASCII case and white space.
- Navigation.ShortName: the name is fetched when the user changes. Before that fetch completes the button shows the empty initial name's fallback. That ordering is not modelled.
- Purely presentational files: footer, hero, about, article card and list, news detail page, routing table and entry point.
- Search and category handlers of the listing pages: the top bar takes no handler, its search box writes only the shared search context, and its own search handler does nothing. So as the site is routed, the `onSearch` and `onCategoryFilter` handlers that Todos, the home page, Pesquisas, Artigos Completos and Dissertações pass to the top bar are never called. Todos and the home page also pass their category setter to the side menu, which calls it on a click on every entry except "Início"; but that entry's link then leaves the page, or, on Todos, the entry is "Todos" and sets the category the page already holds (`Sidebar.ReportedCategoryIsTransient`). So each page keeps its initial empty query and "Todos" category (`Listings.AsRouted` states what the pages then list). The page functions are modelled with a query and category as parameters, as written, so that a future caller of the handlers is covered. The differences `Listings.BlankQueryWitness` and `Listings.FavoritosIgnoresTags` exhibit are therefore not visible on the site today.
- Routing: the routing table has no route for the theses page, the news page or a news item (`/noticia/:id`). `Listings.Teses`, `News.Noticias` and `News.Card` model those components as written, but no address of the site reaches them.
- Favorites.Toggle: toggles are modelled one at a time, with the rendered list and the latest list the same. The hook decides on the list the page last rendered but updates the latest one, and the button stays enabled while a request runs, so overlapping clicks can list an id twice (`Favorites.ToggleOnLatest` models the two lists and `Favorites.OverlappingAddsRepeat` exhibits the repeat).
- Favorites.ToggleKeepsDistinct: holds for toggles that do not overlap; overlapping successful adds break it, as above.
- ArticleFiles.DownloadAction: the download-count update after a saved file is the new count to write. Whether that write succeeds is ignored, as the source ignores it.

## Findings

| source | as written | input that shows it | evidently intended | confidence | as-written member | corrected member |
|---|---|---|---|---|---|---|
| src/components/ArticleForm.tsx:179-191 | when an edit uploads a new file, the old stored file is removed before the update is sent, whatever the update returns | editing an article whose file is "old.pdf" with a new upload, when the update fails: "old.pdf" is removed while the stored row still names it | remove the old file only once the update has succeeded | not executed; medium | ArticleForm.FailedUpdateRemovesReferencedFile | ArticleForm.SubmitCorrected |
| src/pages/ArticleDetail.tsx:53 | the saved file's extension is the MIME subtype | a DOC file (type application/msword) titled T downloads as "T.msword"; a DOCX file as "T.vnd.openxmlformats-officedocument.wordprocessingml.document" | the usual extensions "doc" and "docx" for the accepted Word types | not executed; medium | ArticleFiles.WordDownloadNames | ArticleFiles.ConventionalExtension |
