/** `extractTechnologies` of the project detail page: which technologies a
    free-text project description mentions, found by whole-word,
    case-insensitive keyword matching against a fixed table, listed without
    repeats and ordered by a fixed priority list. */
module TechExtraction {
  import opened Text
  import opened WordMatch
  import opened Collections
  import opened StableSort

  /** One row of the keyword table: a display name and the keywords that
      reveal it. */
  datatype TechEntry = TechEntry(name: string, keywords: seq<string>)

  /** The keyword table, in the insertion order of the object literal. */
  const TechKeywords: seq<TechEntry> :=
    [
      TechEntry("React", ["react", "react.js", "reactjs", "reactjs"]),
      TechEntry("React Native", ["react native", "react-native", "reactnative"]),
      TechEntry("Vue.js", ["vue.js", "vuejs", "vue"]),
      TechEntry("Angular", ["angular", "angularjs", "angular.js"]),
      TechEntry("Next.js", ["next.js", "nextjs", "next"]),
      TechEntry("Nuxt.js", ["nuxt.js", "nuxtjs", "nuxt"]),
      TechEntry("TypeScript", ["typescript", "ts"]),
      TechEntry("JavaScript", ["javascript", "js", "es6", "es2015", "ecmascript"]),
      TechEntry("Python", ["python", "py"]),
      TechEntry("Java", ["java"]),
      TechEntry("PHP", ["php"]),
      TechEntry("Ruby", ["ruby"]),
      TechEntry("Go", ["go", "golang"]),
      TechEntry("C++", ["c++", "cpp"]),
      TechEntry("C#", ["c#", "csharp"]),
      TechEntry("HTML5", ["html5", "html"]),
      TechEntry("CSS3", ["css3", "css"]),
      TechEntry("SCSS", ["scss", "sass"]),
      TechEntry("SASS", ["sass"]),
      TechEntry("Less", ["less"]),
      TechEntry("Tailwind CSS", ["tailwind", "tailwindcss"]),
      TechEntry("Bootstrap", ["bootstrap"]),
      TechEntry("Styled Components", ["styled-components", "styled components"]),
      TechEntry("Material-UI", ["material-ui", "react-material-ui", "mui", "material ui"]),
      TechEntry("Ant Design", ["ant design", "antd"]),
      TechEntry("jQuery", ["jquery", "jq"]),
      TechEntry("Django", ["django"]),
      TechEntry("Flask", ["flask"]),
      TechEntry("FastAPI", ["fastapi", "fast api"]),
      TechEntry("Node.js", ["node.js", "nodejs", "node"]),
      TechEntry("Express", ["express", "express.js", "expressjs"]),
      TechEntry("NestJS", ["nestjs", "nest.js"]),
      TechEntry("Laravel", ["laravel"]),
      TechEntry("Symfony", ["symfony"]),
      TechEntry("Spring Boot", ["spring boot", "springboot"]),
      TechEntry("ASP.NET", ["asp.net", "aspnet"]),
      TechEntry("MongoDB", ["mongodb", "mongo"]),
      TechEntry("PostgreSQL", ["postgresql", "postgres"]),
      TechEntry("MySQL", ["mysql"]),
      TechEntry("SQLite", ["sqlite"]),
      TechEntry("Oracle", ["oracle"]),
      TechEntry("SQL Server", ["sql server", "mssql"]),
      TechEntry("DynamoDB", ["dynamodb", "dynamo"]),
      TechEntry("Redis", ["redis"]),
      TechEntry("Elasticsearch", ["elasticsearch", "elastic search"]),
      TechEntry("Cassandra", ["cassandra"]),
      TechEntry("AWS", ["aws", "amazon web services", "amazon"]),
      TechEntry("EC2", ["ec2"]),
      TechEntry("S3", ["s3", "amazon s3"]),
      TechEntry("Lambda", ["lambda", "aws lambda"]),
      TechEntry("CloudFront", ["cloudfront"]),
      TechEntry("Cognito", ["cognito", "aws cognito"]),
      TechEntry("AppSync", ["appsync", "aws appsync"]),
      TechEntry("Azure", ["azure", "microsoft azure"]),
      TechEntry("GCP", ["gcp", "google cloud", "google cloud platform"]),
      TechEntry("Firebase", ["firebase"]),
      TechEntry("Heroku", ["heroku"]),
      TechEntry("Vercel", ["vercel"]),
      TechEntry("Netlify", ["netlify"]),
      TechEntry("Jenkins", ["jenkins"]),
      TechEntry("GitHub Actions", ["github actions", "gh actions"]),
      TechEntry("GitLab CI", ["gitlab ci", "gitlab"]),
      TechEntry("Docker", ["docker"]),
      TechEntry("Kubernetes", ["kubernetes", "k8s"]),
      TechEntry("Nginx", ["nginx"]),
      TechEntry("Apache", ["apache"]),
      TechEntry("GraphQL", ["graphql"]),
      TechEntry("Apollo", ["apollo", "apollo client", "apollo server"]),
      TechEntry("REST API", ["rest api", "restapi", "rest"]),
      TechEntry("WebSocket", ["websocket", "websockets", "ws"]),
      TechEntry("OpenTok", ["opentok"]),
      TechEntry("Twilio", ["twilio"]),
      TechEntry("Stripe", ["stripe"]),
      TechEntry("PayPal", ["paypal"]),
      TechEntry("Redux", ["redux"]),
      TechEntry("MobX", ["mobx"]),
      TechEntry("Zustand", ["zustand"]),
      TechEntry("Recoil", ["recoil"]),
      TechEntry("D3.js", ["d3.js", "d3js", "d3"]),
      TechEntry("Chart.js", ["chart.js", "chartjs"]),
      TechEntry("Axios", ["axios"]),
      TechEntry("Fetch API", ["fetch api", "fetch"]),
      TechEntry("Webflow", ["webflow"]),
      TechEntry("Figma", ["figma"]),
      TechEntry("Git", ["git", "github", "gitlab", "bitbucket"]),
      TechEntry("CI/CD", ["ci/cd", "continuous integration", "continuous deployment", "cicd"]),
      TechEntry("Jest", ["jest"]),
      TechEntry("Mocha", ["mocha"]),
      TechEntry("Cypress", ["cypress"]),
      TechEntry("Webpack", ["webpack"]),
      TechEntry("Vite", ["vite"]),
      TechEntry("Babel", ["babel"]),
      TechEntry("ESLint", ["eslint"]),
      TechEntry("Prettier", ["prettier"]),
      TechEntry("iOS", ["ios", "iphone", "ipad"]),
      TechEntry("Android", ["android"]),
      TechEntry("Flutter", ["flutter"]),
      TechEntry("Ionic", ["ionic"]),
      TechEntry("Xamarin", ["xamarin"]),
      TechEntry("OAuth2", ["oauth2", "oauth"]),
      TechEntry("JWT", ["jwt", "json web token"]),
      TechEntry("FCM", ["fcm", "firebase cloud messaging"]),
      TechEntry("PWA", ["pwa", "progressive web app"]),
      TechEntry("WebRTC", ["webrtc"]),
      TechEntry("Socket.io", ["socket.io", "socketio"])
    ]

  /** The display priority: these names come first, in this order. */
  const CategoryOrder: seq<string> :=
    [ "React", "Vue.js", "Angular", "React Native", "Next.js",
      "TypeScript", "JavaScript", "Python", "Node.js",
      "HTML5", "CSS3", "SCSS", "Tailwind CSS", "Styled Components",
      "Django", "Express", "Laravel",
      "MongoDB", "PostgreSQL", "MySQL", "Redis",
      "AWS", "Firebase", "Docker", "Kubernetes",
      "GraphQL", "REST API", "WebSocket",
      "Redux", "Git", "CI/CD" ]

  /** `Math.max(...keywords.map(k => k.length))`; every row of the table has
      at least one keyword, so the `-Infinity` of an empty list never arises
      (it is 0 here). */
  function MaxKeywordLength(keywords: seq<string>): (n: nat)
    ensures forall i :: 0 <= i < |keywords| ==> |keywords[i]| <= n
    ensures keywords != [] ==> exists i :: 0 <= i < |keywords| && |keywords[i]| == n
  {
    if keywords == [] then 0
    else
      var m := MaxKeywordLength(keywords[1..]);
      assert forall i :: 1 <= i < |keywords| ==> keywords[i] == keywords[1..][i - 1];
      if |keywords[0]| >= m then |keywords[0]| else m
  }

  /** The sort key of the specificity pre-sort: longest keyword first. */
  function Specificity(e: TechEntry): int
  {
    -(MaxKeywordLength(e.keywords) as int)
  }

  /** `Object.entries(techKeywords).sort(...)`: the rows with the longest
      keywords first, rows of equal keyword length in table order. */
  function Prioritised(table: seq<TechEntry>): (sorted: seq<TechEntry>)
    ensures multiset(sorted) == multiset(table)
    ensures forall i, j :: 0 <= i < j < |sorted| ==>
              MaxKeywordLength(sorted[i].keywords) >= MaxKeywordLength(sorted[j].keywords)
  {
    SortByKeyFacts(table, Specificity);
    SortByKey(table, Specificity)
  }

  /** `keywords.some(...)`: some keyword, lower-cased, occurs as a whole word
      in `text`. */
  predicate Mentions(text: string, e: TechEntry)
  {
    exists i :: 0 <= i < |e.keywords| && Test(text, ToLower(e.keywords[i]))
  }

  /** The names of the rows of `entries` mentioned in `text`, in order. */
  function MentionedNames(text: string, entries: seq<TechEntry>): seq<string>
  {
    if entries == [] then []
    else
      var last := entries[|entries| - 1];
      MentionedNames(text, entries[..|entries| - 1]) + (if Mentions(text, last) then [last.name] else [])
  }

  lemma MentionedNamesSnoc(text: string, entries: seq<TechEntry>, e: TechEntry)
    ensures MentionedNames(text, entries + [e]) ==
            if Mentions(text, e) then MentionedNames(text, entries) + [e.name] else MentionedNames(text, entries)
  {
    assert (entries + [e])[..|entries|] == entries;
  }

  lemma {:induction false} MentionedNamesMembership(text: string, entries: seq<TechEntry>)
    ensures forall name :: name in MentionedNames(text, entries) <==>
              exists e :: e in entries && e.name == name && Mentions(text, e)
  {
    if entries != [] {
      var init := entries[..|entries| - 1];
      MentionedNamesMembership(text, init);
      assert entries == init + [entries[|entries| - 1]];
    }
  }

  /** What the discovery loop collects: the mentioned names in pre-sort
      order, each at its first occurrence. */
  function Discovered(description: string, table: seq<TechEntry>): seq<string>
  {
    Dedup(MentionedNames(ToLower(description), Prioritised(table)))
  }

  /** Position in the priority list; names not in it share the last rank. */
  function Rank(order: seq<string>, name: string): (r: nat)
    ensures r <= |order|
    ensures r < |order| <==> name in order
    ensures name in order ==> order[r] == name
  {
    var i := IndexOf(order, name);
    if i == -1 then |order| else i
  }

  function PriorityKey(order: seq<string>): string -> int
  {
    name => Rank(order, name)
  }

  /** The whole extraction as a value: nothing for an empty description,
      otherwise the discovered names stably sorted by rank. */
  function Technologies(description: string, table: seq<TechEntry>, order: seq<string>): seq<string>
  {
    if description == [] then [] else SortByKey(Discovered(description, table), PriorityKey(order))
  }

  /** Every row of the table is considered, in some order. */
  lemma PrioritisedKeepsRows(table: seq<TechEntry>)
    ensures forall e :: e in Prioritised(table) <==> e in table
  {
    var sorted := Prioritised(table);
    forall e ensures e in table <==> e in sorted {
      assert e in table <==> e in multiset(table);
    }
  }

  /** The discovered names are exactly the names of the mentioned rows,
      each once. */
  lemma DiscoveredFacts(description: string, table: seq<TechEntry>)
    ensures NoDuplicates(Discovered(description, table))
    ensures forall name :: name in Discovered(description, table) <==>
              exists e :: e in table && e.name == name && Mentions(ToLower(description), e)
  {
    var sorted := Prioritised(table);
    MentionedNamesMembership(ToLower(description), sorted);
    DedupFacts(MentionedNames(ToLower(description), sorted));
    PrioritisedKeepsRows(table);
  }

  /** An empty description mentions nothing. */
  lemma EmptyMentionsNothing(e: TechEntry)
    ensures !Mentions(ToLower(""), e)
  {
    if Mentions(ToLower(""), e) {
      var i :| 0 <= i < |e.keywords| && Test(ToLower(""), ToLower(e.keywords[i]));
      NothingOccursInEmpty(ToLower(e.keywords[i]));
    }
  }

  /** The result lists each technology once, and a name is in it exactly
      when one of its keywords occurs as a whole word in the description,
      ignoring case. */
  lemma TechnologiesMembership(description: string, table: seq<TechEntry>, order: seq<string>)
    ensures NoDuplicates(Technologies(description, table, order))
    ensures forall name :: name in Technologies(description, table, order) <==>
              exists e :: e in table && e.name == name && Mentions(ToLower(description), e)
  {
    var found := Discovered(description, table);
    var r := Technologies(description, table, order);
    DiscoveredFacts(description, table);
    if description == [] {
      forall e | e in table ensures !Mentions(ToLower(description), e) {
        EmptyMentionsNothing(e);
      }
    } else {
      SortByKeyFacts(found, PriorityKey(order));
      PermutationKeepsDistinct(found, r);
      forall name ensures name in r <==> name in found {
        assert name in r <==> name in multiset(r);
      }
    }
  }

  /** In a list without repeats sorted by rank, a name from the priority
      list is preceded only by names from the list, in list order. */
  lemma RankSortedIsPriorityOrder(r: seq<string>, order: seq<string>)
    requires SortedBy(r, PriorityKey(order)) && NoDuplicates(r)
    ensures forall i, j :: 0 <= i < j < |r| && r[j] in order ==>
              r[i] in order && IndexOf(order, r[i]) < IndexOf(order, r[j])
  {
    forall i, j | 0 <= i < j < |r| && r[j] in order
      ensures r[i] in order && IndexOf(order, r[i]) < IndexOf(order, r[j])
    {
      assert Rank(order, r[i]) <= Rank(order, r[j]);
    }
  }

  /** A name from the priority list is preceded only by names from the
      list, and those come in list order; so every listed name precedes
      every unlisted one. */
  lemma TechnologiesOrdered(description: string, table: seq<TechEntry>, order: seq<string>)
    ensures var r := Technologies(description, table, order);
      forall i, j :: 0 <= i < j < |r| && r[j] in order ==>
        r[i] in order && IndexOf(order, r[i]) < IndexOf(order, r[j])
  {
    var found := Discovered(description, table);
    var r := Technologies(description, table, order);
    if description != [] {
      SortByKeyFacts(found, PriorityKey(order));
      DedupFacts(MentionedNames(ToLower(description), Prioritised(table)));
      PermutationKeepsDistinct(found, r);
      RankSortedIsPriorityOrder(r, order);
    }
  }

  /** The discovery loop over the pre-sorted table, then the priority sort. */
  method ExtractTechnologies(description: string, table: seq<TechEntry>, order: seq<string>) returns (techs: seq<string>)
    ensures techs == Technologies(description, table, order)
  {
    if description == [] {
      return [];
    }
    var text := ToLower(description);
    var sorted := Prioritised(table);
    var found: seq<string> := [];
    var i := 0;
    while i < |sorted|
      invariant i <= |sorted|
      invariant found == Dedup(MentionedNames(text, sorted[..i]))
    {
      var e := sorted[i];
      assert sorted[..i + 1] == sorted[..i] + [e];
      MentionedNamesSnoc(text, sorted[..i], e);
      if Mentions(text, e) && e.name !in found {
        DedupSnoc(MentionedNames(text, sorted[..i]), e.name);
        found := found + [e.name];
      } else if Mentions(text, e) {
        DedupSnoc(MentionedNames(text, sorted[..i]), e.name);
      }
      i := i + 1;
    }
    assert sorted[..i] == sorted;
    techs := SortByKey(found, PriorityKey(order));
  }
}
