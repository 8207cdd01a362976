/** The project detail page's loading step: the stored project with the
    requested id is looked up, and its technology and feature lists are
    filled in from its description when they are missing or empty, with a
    default GitHub link. */
module ProjectDetails {
  import opened Wrappers
  import opened Collections
  import TechExtraction
  import FeatureExtraction

  /** The link shown when a project has none. */
  const DefaultGithub: string := "https://github.com/EkiZR"

  /** A stored project record. `id` is the identifier in its string form
      (`String(p.id)`); an absent or `null` field is `None`; `others` holds
      the fields the page copies over untouched (title, images, links). */
  datatype Project = Project(
    id: string,
    description: Option<string>,
    techStack: Option<seq<string>>,
    features: Option<seq<string>>,
    github: Option<string>,
    others: map<string, string>)

  /** `projects.find(p => String(p.id) === id)`: the first project with
      that identifier. */
  function FindProject(projects: seq<Project>, id: string): (r: Option<Project>)
    ensures r.None? <==> forall k :: 0 <= k < |projects| ==> projects[k].id != id
    ensures r.Some? ==> r.value.id == id
    ensures r.Some? ==> exists k :: 0 <= k < |projects| && projects[k] == r.value &&
                                    forall j :: 0 <= j < k ==> projects[j].id != id
  {
    if projects == [] then None
    else if projects[0].id == id then Some(projects[0])
    else
      var r := FindProject(projects[1..], id);
      assert forall k :: 1 <= k < |projects| ==> projects[k] == projects[1..][k - 1];
      r
  }

  /** `p.Description || ''`. */
  function DescriptionText(p: Project): string
  {
    match p.description
    case Some(d) => d
    case None => ""
  }

  /** `list && list.length > 0`. */
  predicate Stored(list: Option<seq<string>>)
  {
    list.Some? && list.value != []
  }

  /** `p.Github || 'https://github.com/EkiZR'`: the empty string is falsy
      too. */
  function GithubOrDefault(github: Option<string>): (g: string)
    ensures g != []
    ensures github.Some? && github.value != [] ==> g == github.value
    ensures github.None? || github.value == [] ==> g == DefaultGithub
  {
    if github.Some? && github.value != [] then github.value else DefaultGithub
  }

  /** The enhanced project. Identifier, description and the other fields
      are unchanged; a non-empty stored list is kept as it is, and a missing
      or empty one is replaced by the extraction from the description (the
      empty string when there is none); the link is never empty and a
      non-empty stored link is kept. */
  function Enhance(p: Project, table: seq<TechExtraction.TechEntry>, order: seq<string>,
                   vocabulary: FeatureExtraction.Vocabulary): (e: Project)
    ensures e.id == p.id && e.description == p.description && e.others == p.others
    ensures e.techStack.Some? && e.features.Some? && e.github.Some? && e.github.value != []
    ensures Stored(p.techStack) ==> e.techStack == p.techStack
    ensures !Stored(p.techStack) ==>
      e.techStack.value == TechExtraction.Technologies(DescriptionText(p), table, order)
    ensures Stored(p.features) ==> e.features == p.features
    ensures !Stored(p.features) ==>
      e.features.value == FeatureExtraction.Features(DescriptionText(p), vocabulary)
    ensures p.github.Some? && p.github.value != [] ==> e.github == p.github
  {
    var techs := if Stored(p.techStack) then p.techStack.value
                 else TechExtraction.Technologies(DescriptionText(p), table, order);
    var features := if Stored(p.features) then p.features.value
                    else FeatureExtraction.Features(DescriptionText(p), vocabulary);
    p.(techStack := Some(techs), features := Some(features), github := Some(GithubOrDefault(p.github)))
  }

  /** Enhancing twice gives the same project as enhancing once: a filled-in
      list is either kept or, when the extraction found nothing, extracted
      again from the same description. */
  lemma EnhanceIdempotent(p: Project, table: seq<TechExtraction.TechEntry>, order: seq<string>,
                          vocabulary: FeatureExtraction.Vocabulary)
    ensures Enhance(Enhance(p, table, order, vocabulary), table, order, vocabulary) ==
            Enhance(p, table, order, vocabulary)
  {
    var e := Enhance(p, table, order, vocabulary);
    assert DescriptionText(e) == DescriptionText(p);
  }

  /** Features filled in by the enhancement obey the extraction's bounds:
      at most 8, no repeats, each 25 to 200 characters ending in a full
      stop. */
  lemma EnhancedFeaturesBounded(p: Project, table: seq<TechExtraction.TechEntry>, order: seq<string>,
                                vocabulary: FeatureExtraction.Vocabulary)
    requires !Stored(p.features)
    ensures var f := Enhance(p, table, order, vocabulary).features.value;
      |f| <= 8 && NoDuplicates(f) &&
      forall g :: g in f ==> 25 <= |g| <= 200 && g[|g| - 1] == '.'
  {
    FeatureExtraction.FeaturesAreCollected(DescriptionText(p), vocabulary);
    FeatureExtraction.FeaturesShape(DescriptionText(p), vocabulary);
  }

  /** Technologies filled in by the enhancement have no repeats and each
      names a row of the table. */
  lemma EnhancedTechnologiesFromTable(p: Project, table: seq<TechExtraction.TechEntry>, order: seq<string>,
                                      vocabulary: FeatureExtraction.Vocabulary)
    requires !Stored(p.techStack)
    ensures var t := Enhance(p, table, order, vocabulary).techStack.value;
      NoDuplicates(t) && forall name :: name in t ==> exists e :: e in table && e.name == name
  {
    TechExtraction.TechnologiesMembership(DescriptionText(p), table, order);
  }

  /** The page's effect: look the project up by its identifier and, when
      found, enhance it with the lists of the site. The result is what the
      page stores as its project; `None` leaves it unset. */
  method LoadProject(stored: seq<Project>, id: string) returns (project: Option<Project>)
    ensures project.None? <==> forall k :: 0 <= k < |stored| ==> stored[k].id != id
    ensures project.Some? ==>
      (FindProject(stored, id).Some? &&
       project.value == Enhance(FindProject(stored, id).value, TechExtraction.TechKeywords,
                                TechExtraction.CategoryOrder, FeatureExtraction.SiteVocabulary))
  {
    var selected := FindProject(stored, id);
    if selected.None? {
      return None;
    }
    var p := selected.value;
    var techs: seq<string>;
    if Stored(p.techStack) {
      techs := p.techStack.value;
    } else {
      techs := TechExtraction.ExtractTechnologies(DescriptionText(p), TechExtraction.TechKeywords,
                                                  TechExtraction.CategoryOrder);
    }
    var features: seq<string>;
    if Stored(p.features) {
      features := p.features.value;
    } else {
      features := FeatureExtraction.ExtractFeatures(DescriptionText(p), FeatureExtraction.SiteVocabulary);
    }
    project := Some(p.(techStack := Some(techs), features := Some(features), github := Some(GithubOrDefault(p.github))));
  }
}
