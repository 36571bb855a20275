/** The article listings: the search-and-category filters of the general
    pages (Todos, Index), the fixed-category pages (Pesquisas, Teses), the
    favourites page and the single-category pages with search handlers
    (ArtigosCompletos, Dissertacoes). */
module Listings {
  import opened Js
  import opened Articles

  // ---------------------------------------------------------------------
  // Todos

  /** Todos keeps an article when the query is exactly "" or matches (tags
      included), and the category is "Todos" or the article's own. */
  predicate TodosKeeps(a: Article, query: string, category: string) {
    (query == "" || MatchesWithTags(a, query)) &&
    (category == AllCategories || a.category == category)
  }

  function Todos(articles: seq<Article>, query: string, category: string): (shown: seq<Article>)
    ensures IsSubsequence(shown, articles)
    ensures forall i :: 0 <= i < |shown| ==> category == AllCategories || shown[i].category == category
    ensures forall i :: 0 <= i < |shown| ==> query == "" || MatchesWithTags(shown[i], query)
    ensures forall i :: 0 <= i < |articles| && TodosKeeps(articles[i], query, category) ==>
              articles[i] in shown
  {
    Filter(articles, (a: Article) => TodosKeeps(a, query, category))
  }

  /** With no query and no category every article is listed, in order. */
  lemma TodosUnfilteredListsAll(articles: seq<Article>)
    ensures Todos(articles, "", AllCategories) == articles
  {
    FilterKeepsAll(articles, (a: Article) => TodosKeeps(a, "", AllCategories));
  }

  /** The count line under the Todos filter: singular exactly for one result. */
  function CountLabel(shown: seq<Article>): (line: string)
    ensures line == "publicação encontrada" <==> |shown| == 1
    ensures line == "publicações encontradas" <==> |shown| != 1
  {
    if |shown| == 1 then "publicação encontrada" else "publicações encontradas"
  }

  // ---------------------------------------------------------------------
  // Index

  /** The home page first restricts by category, then searches with the
      lower-cased query, but only when the query is not blank. */
  function Index(articles: seq<Article>, query: string, category: string): seq<Article> {
    var byCategory :=
      if category != AllCategories then Filter(articles, (a: Article) => a.category == category) else articles;
    if Trim(query) != "" then
      var lowered := ToLowerCase(query);
      Filter(byCategory, (a: Article) => MatchesWithTags(a, lowered))
    else byCategory
  }

  /** The single condition the two stages of Index amount to. */
  predicate IndexKeeps(a: Article, query: string, category: string) {
    (category == AllCategories || a.category == category) &&
    (AllSpace(query) || MatchesWithTags(a, query))
  }

  /** Restricting by category and then searching is filtering once by the
      conjunction of both conditions. */
  lemma IndexIsOneFilter(articles: seq<Article>, query: string, category: string)
    ensures Index(articles, query, category) == Filter(articles, (a: Article) => IndexKeeps(a, query, category))
  {
    var lowered := ToLowerCase(query);
    forall a: Article
      ensures MatchesWithTags(a, lowered) == MatchesWithTags(a, query)
    {
      LoweredQueryMatchesAlike(a, query);
    }
    var keeps := (a: Article) => IndexKeeps(a, query, category);
    var byCategory := (a: Article) => a.category == category;
    var search := (a: Article) => MatchesWithTags(a, lowered);
    if category != AllCategories {
      if Trim(query) != "" {
        FilterTwice(articles, byCategory, search, keeps);
      } else {
        FilterAgrees(articles, byCategory, keeps);
      }
    } else {
      if Trim(query) != "" {
        FilterAgrees(articles, search, keeps);
      } else {
        FilterKeepsAll(articles, keeps);
      }
    }
  }

  /** What Index lists: an order-preserving selection of the articles of the
      chosen category that match a non-blank query, and all such articles. */
  lemma IndexSelects(articles: seq<Article>, query: string, category: string)
    ensures var shown := Index(articles, query, category);
      && IsSubsequence(shown, articles)
      && (forall i :: 0 <= i < |shown| ==> category == AllCategories || shown[i].category == category)
      && (forall i :: 0 <= i < |shown| ==> AllSpace(query) || MatchesWithTags(shown[i], query))
      && (forall i :: 0 <= i < |articles| && IndexKeeps(articles[i], query, category) ==>
            articles[i] in shown)
  {
    IndexIsOneFilter(articles, query, category);
  }

  /** Index and Todos list the same articles for every query except a
      non-empty blank one. */
  lemma IndexAgreesWithTodos(articles: seq<Article>, query: string, category: string)
    requires query == "" || !AllSpace(query)
    ensures Index(articles, query, category) == Todos(articles, query, category)
  {
    IndexIsOneFilter(articles, query, category);
    FilterAgrees(articles, (a: Article) => IndexKeeps(a, query, category), (a: Article) => TodosKeeps(a, query, category));
  }

  /** For a non-empty blank query Index ignores the search, as Todos does
      for the empty query. */
  lemma IndexIgnoresBlankQuery(articles: seq<Article>, query: string, category: string)
    requires query != "" && AllSpace(query)
    ensures Index(articles, query, category) == Todos(articles, "", category)
  {
    IndexIsOneFilter(articles, query, category);
    FilterAgrees(articles, (a: Article) => IndexKeeps(a, query, category), (a: Article) => TodosKeeps(a, "", category));
  }

  /** The two pages do differ on a blank query: Todos searches for the space literally. */
  lemma BlankQueryWitness()
    ensures var a := Article("1", "x", [], "", "Teses", "", 0, None, None, None, None, []);
      Todos([a], " ", AllCategories) == [] && Index([a], " ", AllCategories) == [a]
  {
    var a := Article("1", "x", [], "", "Teses", "", 0, None, None, None, None, []);
    assert ToLowerCase(" ") == " ";
    assert ToLowerCase("x") == "x";
    assert ToLowerCase("") == "";
    assert !Includes("x", " ") by {
      assert " "[0] != "x"[0];
      assert "x"[1..] == "";
      assert !Includes("", " ");
    }
    assert !MatchesWithTags(a, " ");
    assert Filter([a], (b: Article) => TodosKeeps(b, " ", AllCategories)) == [];
    IndexIgnoresBlankQuery([a], " ", AllCategories);
    TodosUnfilteredListsAll([a]);
  }

  datatype Preview = Preview(cards: seq<Article>, notice: Option<nat>)

  /** The home page shows the first six results and, past six, the
      "Mostrando 6 de n" notice with the full count. */
  function IndexPreview(filtered: seq<Article>): (p: Preview)
    ensures p.cards <= filtered && |p.cards| <= 6
    ensures |p.cards| == 6 || p.cards == filtered
    ensures p.notice.Some? <==> |filtered| > 6
    ensures p.notice.Some? ==> p.notice.value == |filtered| && |p.cards| == 6
  {
    var cards := if |filtered| <= 6 then filtered else filtered[..6];
    Preview(cards, if |filtered| > 6 then Some(|filtered|) else None)
  }

  // ---------------------------------------------------------------------
  // Fixed-category pages

  /** Pesquisas lists only "Pesquisas" articles; its own category state is
      never consulted. */
  function Pesquisas(articles: seq<Article>, query: string): (shown: seq<Article>)
    ensures IsSubsequence(shown, articles)
    ensures forall i :: 0 <= i < |shown| ==> shown[i].category == "Pesquisas"
    ensures forall i :: 0 <= i < |shown| ==> query == "" || MatchesWithTags(shown[i], query)
  {
    Filter(articles, (a: Article) => a.category == "Pesquisas" && (query == "" || MatchesWithTags(a, query)))
  }

  /** Pesquisas is the Todos filter with the category fixed. */
  lemma PesquisasIsTodosFixed(articles: seq<Article>, query: string)
    ensures Pesquisas(articles, query) == Todos(articles, query, "Pesquisas")
  {
    FilterAgrees(articles,
      (a: Article) => a.category == "Pesquisas" && (query == "" || MatchesWithTags(a, query)),
      (a: Article) => TodosKeeps(a, query, "Pesquisas"));
  }

  /** With the empty query Pesquisas lists exactly the "Pesquisas" articles. */
  lemma PesquisasEmptyQuery(articles: seq<Article>)
    ensures Pesquisas(articles, "") == Filter(articles, (a: Article) => a.category == "Pesquisas")
  {
    FilterAgrees(articles,
      (a: Article) => a.category == "Pesquisas" && ("" == "" || MatchesWithTags(a, "")),
      (a: Article) => a.category == "Pesquisas");
  }

  /** Teses reads the shared search context, category included, but filters
      on "Teses" alone. */
  function Teses(articles: seq<Article>, query: string, selectedCategory: string): (shown: seq<Article>)
    ensures IsSubsequence(shown, articles)
    ensures forall i :: 0 <= i < |shown| ==> shown[i].category == "Teses"
    ensures forall i :: 0 <= i < |shown| ==> query == "" || MatchesWithTags(shown[i], query)
  {
    Filter(articles, (a: Article) => a.category == "Teses" && (query == "" || MatchesWithTags(a, query)))
  }

  /** Whatever category the context holds, Teses is the Todos filter fixed to "Teses". */
  lemma TesesIgnoresSelectedCategory(articles: seq<Article>, query: string, selectedCategory: string)
    ensures Teses(articles, query, selectedCategory) == Todos(articles, query, "Teses")
  {
    FilterAgrees(articles,
      (a: Article) => a.category == "Teses" && (query == "" || MatchesWithTags(a, query)),
      (a: Article) => TodosKeeps(a, query, "Teses"));
  }

  // ---------------------------------------------------------------------
  // Favourites

  /** The favourites page keeps the favourited articles, in the order of the
      article list, whose title, authors or abstract match. */
  function Favoritos(articles: seq<Article>, favorites: seq<string>, query: string): (shown: seq<Article>)
    ensures IsSubsequence(shown, articles)
    ensures forall i :: 0 <= i < |shown| ==> shown[i].id in favorites
    ensures forall i :: 0 <= i < |shown| ==> query == "" || MatchesWithoutTags(shown[i], query)
    ensures forall i :: 0 <= i < |articles| ==>
              (articles[i].id in favorites && (query == "" || MatchesWithoutTags(articles[i], query)) ==>
                 articles[i] in shown)
  {
    Filter(articles, (a: Article) => a.id in favorites && (query == "" || MatchesWithoutTags(a, query)))
  }

  /** Without a signed-in user the page computes no list at all. */
  function FavoritosPage(signedIn: bool, articles: seq<Article>, favorites: seq<string>, query: string)
    : (list: Option<seq<Article>>)
    ensures list.None? <==> !signedIn
    ensures list.Some? ==> forall i :: 0 <= i < |list.value| ==> list.value[i].id in favorites
  {
    if signedIn then Some(Favoritos(articles, favorites, query)) else None
  }

  /** With the empty query the page lists exactly the favourited articles. */
  lemma FavoritosEmptyQuery(articles: seq<Article>, favorites: seq<string>)
    ensures Favoritos(articles, favorites, "") == Filter(articles, (a: Article) => a.id in favorites)
  {
    FilterAgrees(articles,
      (a: Article) => a.id in favorites && ("" == "" || MatchesWithoutTags(a, "")),
      (a: Article) => a.id in favorites);
  }

  /** Tags are never searched: a favourite that matches only by a tag is
      left out, where Todos would list it. */
  lemma FavoritosIgnoresTags()
    ensures var a := Article("7", "y", [], "", "Teses", "", 0, None, None, None, None, ["x"]);
      Favoritos([a], ["7"], "x") == [] && Todos([a], "x", AllCategories) == [a]
  {
    var a := Article("7", "y", [], "", "Teses", "", 0, None, None, None, None, ["x"]);
    assert ToLowerCase("x") == "x";
    assert ToLowerCase("y") == "y";
    assert ToLowerCase("") == "";
    assert !Includes("y", "x") by {
      assert "x"[0] != "y"[0];
      assert "y"[1..] == "";
      assert !Includes("", "x");
    }
    assert FieldMatches(a.tags[0], "x");
    assert MatchesWithTags(a, "x");
    assert !MatchesWithoutTags(a, "x");
    assert Filter([a], (b: Article) => TodosKeeps(b, "x", AllCategories)) == [a];
  }

  // ---------------------------------------------------------------------
  // As routed

  /** The top bar takes no handlers: its search box writes only the shared
      search context, and its category buttons are links. So the `onSearch`
      and `onCategoryFilter` handlers that Todos, Index and Pesquisas pass it
      are never called, and these pages keep their initial empty query and
      "Todos" category: Todos and Index list every article, Pesquisas every
      "Pesquisas" article. */
  lemma AsRouted(articles: seq<Article>)
    ensures Todos(articles, "", AllCategories) == articles
    ensures Index(articles, "", AllCategories) == articles
    ensures Pesquisas(articles, "") == OfCategory(articles, "Pesquisas")
  {
    TodosUnfilteredListsAll(articles);
    assert Trim("") == "";
    PesquisasEmptyQuery(articles);
    FilterAgrees(articles, (a: Article) => a.category == "Pesquisas",
                 (a: Article) => a.category == "Pesquisas");
  }

  // ---------------------------------------------------------------------
  // Single-category pages with search handlers

  /** The search handler of ArtigosCompletos and Dissertacoes: articles of the
      page's own category whose title, authors or abstract match. There is
      no empty-query shortcut and tags are not searched. */
  function PageSearch(pool: seq<Article>, home: string, query: string): (shown: seq<Article>)
    ensures IsSubsequence(shown, pool)
    ensures forall i :: 0 <= i < |shown| ==> shown[i].category == home && MatchesWithoutTags(shown[i], query)
    ensures forall i :: 0 <= i < |pool| && pool[i].category == home && MatchesWithoutTags(pool[i], query) ==>
              pool[i] in shown
  {
    Filter(pool, (a: Article) => a.category == home && MatchesWithoutTags(a, query))
  }

  /** Searching for "" lists every article of the page's category. */
  lemma PageSearchEmptyQuery(pool: seq<Article>, home: string)
    ensures PageSearch(pool, home, "") == OfCategory(pool, home)
  {
    forall a: Article
      ensures MatchesWithoutTags(a, "")
    {
      EmptyQueryMatches(a);
    }
    FilterAgrees(pool, (a: Article) => a.category == home && MatchesWithoutTags(a, ""), (a: Article) => a.category == home);
  }

  /** The category handler: "Todos" goes back to the page's own category,
      any other category lists that category's articles. */
  function PageCategoryFilter(pool: seq<Article>, home: string, category: string): (shown: seq<Article>)
    ensures IsSubsequence(shown, pool)
    ensures forall i :: 0 <= i < |shown| ==>
              shown[i].category == (if category == AllCategories then home else category)
    ensures forall i :: 0 <= i < |pool| ==>
              (pool[i].category == (if category == AllCategories then home else category) ==> pool[i] in shown)
  {
    if category == AllCategories then OfCategory(pool, home) else OfCategory(pool, category)
  }

  /** Choosing "Todos" restores what the empty search lists. */
  lemma PageTodosRestores(pool: seq<Article>, home: string)
    ensures PageCategoryFilter(pool, home, AllCategories) == PageSearch(pool, home, "")
  {
    PageSearchEmptyQuery(pool, home);
  }

  /** ArtigosCompletos fills its list with the "Artigos Completos" articles
      once the article list is non-empty; until then the list it holds stays. */
  function ArtigosInitial(articles: seq<Article>, current: seq<Article>): (shown: seq<Article>)
    ensures |articles| == 0 ==> shown == current
    ensures |articles| > 0 ==> IsSubsequence(shown, articles)
    ensures |articles| > 0 ==> forall i :: 0 <= i < |shown| ==> shown[i].category == "Artigos Completos"
    ensures |articles| > 0 ==>
              forall i :: 0 <= i < |articles| && articles[i].category == "Artigos Completos" ==> articles[i] in shown
  {
    if |articles| > 0 then OfCategory(articles, "Artigos Completos") else current
  }

  /** Once articles have loaded, "Todos" brings back the initial list. */
  lemma ArtigosTodosRestoresInitial(articles: seq<Article>, current: seq<Article>)
    requires |articles| > 0
    ensures PageCategoryFilter(articles, "Artigos Completos", AllCategories) == ArtigosInitial(articles, current)
  {
  }

  /** The static list the Dissertacoes page works on. The abstracts are
      written as concatenations of shorter pieces only to keep proofs about
      the list cheap; the strings are the same. */
  const MockArticles: seq<Article> := [
    Article("1", "A Importância da Educação Física na Formação Integral do Estudante",
      ["Dr. Maria Silva", "Prof. João Santos"],
      "Este estudo analisa o papel fundamental da Educação Física "
      + "no desenvolvimento cognitivo, motor e social dos estudantes "
      + "no ambiente escolar. A pesquisa foi conduzida com 200 alunos "
      + "do ensino fundamental e apresenta dados significativos sobre "
      + "os benefícios da prática regular de atividades físicas no "
      + "contexto educacional.",
      "Artigos Completos", "2024-01-15", 245, Some("/articles/educacao-fisica-formacao-integral.pdf"),
      None, None, None,
      ["Educação Física", "Desenvolvimento Cognitivo", "Ensino Fundamental", "Formação Integral"]),
    Article("2", "Metodologias Ativas no Ensino da Educação Física Escolar",
      ["Prof. Ana Costa", "Dr. Carlos Oliveira", "Profa. Lucia Martins"],
      "Uma análise comparativa das diferentes metodologias ativas "
      + "aplicadas ao ensino da Educação Física, incluindo "
      + "gamificação, aprendizagem baseada em projetos e metodologias "
      + "colaborativas. O estudo apresenta resultados de aplicação "
      + "prática em três escolas públicas.",
      "Pesquisas", "2024-02-20", 189, Some("/articles/metodologias-ativas-ef.pdf"),
      None, None, None,
      ["Metodologias Ativas", "Gamificação", "Ensino", "Inovação Pedagógica"]),
    Article("3", "Inclusão na Educação Física: Estratégias Pedagógicas para Estudantes com Deficiência",
      ["Dra. Patricia Rocha", "Prof. Roberto Lima"],
      "Este texto acadêmico apresenta estratégias pedagógicas "
      + "eficazes para promover a inclusão de estudantes com "
      + "diferentes tipos de deficiência nas aulas de Educação "
      + "Física. Baseado em experiências práticas e fundamentação "
      + "teórica sólida.",
      "Textos Acadêmicos", "2024-03-10", 312, Some("/articles/inclusao-educacao-fisica.pdf"),
      None, None, None,
      ["Inclusão", "Educação Especial", "Estratégias Pedagógicas", "Acessibilidade"]),
    Article("4", "O Papel do Jogo na Aprendizagem Motora: Uma Perspectiva Construtivista",
      ["Prof. Fernando Dias", "Dra. Mariana Torres"],
      "Investigação sobre como os jogos podem ser utilizados como "
      + "ferramenta pedagógica para o desenvolvimento motor na "
      + "Educação Física escolar, sob a perspectiva da teoria "
      + "construtivista de aprendizagem.",
      "Artigos Completos", "2024-01-28", 198, Some("/articles/jogo-aprendizagem-motora.pdf"),
      None, None, None,
      ["Aprendizagem Motora", "Construtivismo", "Jogos Pedagógicos", "Desenvolvimento Motor"]),
    Article("5", "Avaliação em Educação Física: Além das Medidas Antropométricas",
      ["Dra. Sandra Mendes", "Prof. Alberto Ferreira"],
      "Uma reflexão crítica sobre os métodos de avaliação "
      + "tradicionalmente utilizados na Educação Física escolar e "
      + "propostas alternativas que consideram aspectos qualitativos "
      + "do desenvolvimento dos estudantes.",
      "Dissertações", "2024-02-05", 156, Some("/articles/avaliacao-educacao-fisica.pdf"),
      None, None, None,
      ["Avaliação", "Métodos Qualitativos", "Desenvolvimento Estudantil", "Práticas Pedagógicas"]),
    Article("6", "Educação Física e Saúde Mental: Benefícios da Atividade Física Regular",
      ["Dr. Paulo Rodrigues", "Profa. Camila Nascimento"],
      "Estudo longitudinal que investiga os impactos da prática "
      + "regular de Educação Física na saúde mental de adolescentes, "
      + "com foco na redução da ansiedade e melhoria da autoestima.",
      "Pesquisas", "2024-03-22", 278, Some("/articles/ef-saude-mental.pdf"),
      None, None, None,
      ["Saúde Mental", "Adolescentes", "Atividade Física", "Bem-estar", "Autoestima"])
  ]

  /** Of the six static articles only the fifth is a dissertation. */
  lemma MockCategories()
    ensures |MockArticles| == 6 && MockArticles[4].category == "Dissertações"
    ensures forall i :: 0 <= i < |MockArticles| && i != 4 ==> MockArticles[i].category != "Dissertações"
  {
    var m := MockArticles;
    assert m[0].category == "Artigos Completos";
    assert m[1].category == "Pesquisas";
    assert m[2].category == "Textos Acadêmicos";
    assert m[3].category == "Artigos Completos";
    assert m[5].category == "Pesquisas";
  }

  /** The list Dissertacoes starts with: the "Dissertações" mock articles. */
  function DissertacoesInitial(): (shown: seq<Article>)
    ensures shown == [MockArticles[4]]
  {
    MockCategories();
    FilterKeepsOne(MockArticles, (a: Article) => a.category == "Dissertações", 4);
    OfCategory(MockArticles, "Dissertações")
  }

  /** The Dissertacoes search over the mock list; the empty search gives the
      initial list back, as "Todos" does. */
  lemma DissertacoesResets()
    ensures PageSearch(MockArticles, "Dissertações", "") == DissertacoesInitial()
    ensures PageCategoryFilter(MockArticles, "Dissertações", AllCategories) == DissertacoesInitial()
  {
    PageSearchEmptyQuery(MockArticles, "Dissertações");
  }
}
