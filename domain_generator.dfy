/** The favorite bookkeeping of the domain generator page
    (apps/web/src/components/domain-generator.tsx): which suggested domains
    are favorites, the favorite id kept for each, and the toggle that adds or
    removes one while guarding against a second click on the same domain.
    The component's state hooks become the fields of `Generator`; the
    requests it awaits become the answers passed to its methods. */
module DomainGenerator {
  import opened Strings
  import Generation
  import UserTables
  import Encoding
  import Favorites
  import ApiClient

  /** One entry of a suggestion's `domains` array. */
  datatype DomainEntry = DomainEntry(domain: string, name: Option<string>)

  /** A suggestion; `domains` is missing when it is not an array. */
  datatype Suggestion = Suggestion(domains: Option<seq<DomainEntry>>)

  /** `domain.domain || domain.name`, kept only when truthy. */
  function NameOf(e: DomainEntry): (r: Option<string>)
    ensures r.Some? ==> r.value != ""
    ensures e.domain != "" ==> r == Some(e.domain)
    ensures e.domain == "" ==> r == if Truthy(e.name) then e.name else None
  {
    if e.domain != "" then Some(e.domain)
    else if Truthy(e.name) then e.name
    else None
  }

  /** The name of an entry, as a set: empty when it has none. */
  function NameSet(e: DomainEntry): set<string> {
    if NameOf(e).Some? then {NameOf(e).value} else {}
  }

  /** The names of a run of domain entries. */
  function EntryNames(entries: seq<DomainEntry>): set<string> {
    if |entries| == 0 then {}
    else EntryNames(entries[..|entries| - 1]) + NameSet(entries[|entries| - 1])
  }

  /** A name is collected exactly when some entry carries it. */
  lemma {:induction false} EntryNamesMembers(entries: seq<DomainEntry>, n: string)
    ensures n in EntryNames(entries) <==> exists k :: 0 <= k < |entries| && NameOf(entries[k]) == Some(n)
  {
    if |entries| > 0 {
      var init := entries[..|entries| - 1];
      EntryNamesMembers(init, n);
      if exists k :: 0 <= k < |entries| && NameOf(entries[k]) == Some(n) {
        var k :| 0 <= k < |entries| && NameOf(entries[k]) == Some(n);
        if k < |entries| - 1 {
          assert init[k] == entries[k];
        }
      }
      if exists k :: 0 <= k < |init| && NameOf(init[k]) == Some(n) {
        var k :| 0 <= k < |init| && NameOf(init[k]) == Some(n);
        assert entries[k] == init[k];
      }
    }
  }

  /** The entries of a suggestion, none when `domains` is not an array. */
  function EntriesOf(s: Suggestion): seq<DomainEntry> {
    if s.domains.Some? then s.domains.value else []
  }

  /** Every name the suggestions mention. */
  function SuggestionNames(suggestions: seq<Suggestion>): set<string> {
    if |suggestions| == 0 then {}
    else SuggestionNames(suggestions[..|suggestions| - 1]) + EntryNames(EntriesOf(suggestions[|suggestions| - 1]))
  }

  /** A name is collected exactly when one of the suggestions' entries carries it. */
  lemma {:induction false} SuggestionNamesMembers(suggestions: seq<Suggestion>, n: string)
    ensures n in SuggestionNames(suggestions)
        <==> exists i :: 0 <= i < |suggestions| && n in EntryNames(EntriesOf(suggestions[i]))
  {
    if |suggestions| > 0 {
      var init := suggestions[..|suggestions| - 1];
      SuggestionNamesMembers(init, n);
      if exists i :: 0 <= i < |suggestions| && n in EntryNames(EntriesOf(suggestions[i])) {
        var i :| 0 <= i < |suggestions| && n in EntryNames(EntriesOf(suggestions[i]));
        if i < |suggestions| - 1 {
          assert init[i] == suggestions[i];
        }
      }
      if exists i :: 0 <= i < |init| && n in EntryNames(EntriesOf(init[i])) {
        var i :| 0 <= i < |init| && n in EntryNames(EntriesOf(init[i]));
        assert suggestions[i] == init[i];
      }
    }
  }

  /** `favorites.find(fav => fav.domain === name)`: a favorite of that
      domain, when there is one. */
  function FindByDomain(favorites: seq<Favorites.Favorite>, name: string): (r: Option<Favorites.Favorite>)
    ensures r.None? <==> forall k :: 0 <= k < |favorites| ==> favorites[k].domain != name
    ensures r.Some? ==> r.value in favorites && r.value.domain == name
  {
    if |favorites| == 0 then None
    else if favorites[0].domain == name then Some(favorites[0])
    else FindByDomain(favorites[1..], name)
  }

  /** The favorite found is the first of that domain. */
  lemma {:induction false} FindByDomainFirst(favorites: seq<Favorites.Favorite>, name: string, k: nat)
    requires k < |favorites| && favorites[k].domain == name
    requires forall j :: 0 <= j < k ==> favorites[j].domain != name
    ensures FindByDomain(favorites, name) == Some(favorites[k])
  {
    if k > 0 {
      assert favorites[0].domain != name;
      assert forall j :: 0 <= j < k - 1 ==> favorites[1..][j].domain != name by {
        forall j | 0 <= j < k - 1 ensures favorites[1..][j].domain != name {
          assert favorites[1..][j] == favorites[j + 1];
        }
      }
      FindByDomainFirst(favorites[1..], name, k - 1);
    }
  }

  /** The maps `checkFavoriteStates` builds for the given names: a state for
      every name, true exactly when some favorite has that domain, and the id
      of the first such favorite for the favorited ones only. */
  ghost predicate Reflects(states: map<string, bool>, ids: map<string, string>, names: set<string>,
                           favorites: seq<Favorites.Favorite>)
  {
    && states.Keys == names
    && (forall n :: n in states ==> (states[n] <==> FindByDomain(favorites, n).Some?))
    && (forall n :: n in ids <==> n in names && FindByDomain(favorites, n).Some?)
    && (forall n :: n in ids ==> ids[n] == FindByDomain(favorites, n).value.id)
  }

  /** The names determine the maps: two pairs that reflect the same names and
      favorites are equal. */
  lemma ReflectsUnique(s1: map<string, bool>, i1: map<string, string>, s2: map<string, bool>, i2: map<string, string>,
                       names: set<string>, favorites: seq<Favorites.Favorite>)
    requires Reflects(s1, i1, names, favorites) && Reflects(s2, i2, names, favorites)
    ensures s1 == s2 && i1 == i2
  {
  }

  /** Ids are kept only for domains whose state is true. */
  ghost predicate Consistent(states: map<string, bool>, ids: map<string, string>) {
    forall n :: n in ids ==> n in states && states[n]
  }

  lemma ReflectsConsistent(states: map<string, bool>, ids: map<string, string>, names: set<string>,
                           favorites: seq<Favorites.Favorite>)
    requires Reflects(states, ids, names, favorites)
    ensures Consistent(states, ids)
  {
  }

  /** One iteration of the inner loop: recording a name keeps the maps in
      step with the names seen so far. */
  lemma ReflectsRecord(states: map<string, bool>, ids: map<string, string>, names: set<string>,
                       favorites: seq<Favorites.Favorite>, name: string)
    requires Reflects(states, ids, names, favorites)
    ensures FindByDomain(favorites, name).Some? ==>
      Reflects(states[name := true], ids[name := FindByDomain(favorites, name).value.id], names + {name}, favorites)
    ensures FindByDomain(favorites, name).None? ==>
      Reflects(states[name := false], ids, names + {name}, favorites)
  {
    if FindByDomain(favorites, name).Some? {
      ReflectsRecordFavorite(states, ids, names, favorites, name);
    } else {
      ReflectsRecordOther(states, ids, names, favorites, name);
    }
  }

  lemma ReflectsRecordFavorite(states: map<string, bool>, ids: map<string, string>, names: set<string>,
                               favorites: seq<Favorites.Favorite>, name: string)
    requires Reflects(states, ids, names, favorites) && FindByDomain(favorites, name).Some?
    ensures Reflects(states[name := true], ids[name := FindByDomain(favorites, name).value.id], names + {name}, favorites)
  {
    var s2 := states[name := true];
    var i2 := ids[name := FindByDomain(favorites, name).value.id];
    assert s2.Keys == names + {name};
    forall n | n in s2 ensures s2[n] <==> FindByDomain(favorites, n).Some? {
      if n != name {
        assert s2[n] == states[n];
      }
    }
    forall n ensures n in i2 <==> n in names + {name} && FindByDomain(favorites, n).Some? {
      if n != name {
        assert n in i2 <==> n in ids;
      }
    }
    forall n | n in i2 ensures i2[n] == FindByDomain(favorites, n).value.id {
      if n != name {
        assert i2[n] == ids[n];
      }
    }
  }

  lemma ReflectsRecordOther(states: map<string, bool>, ids: map<string, string>, names: set<string>,
                            favorites: seq<Favorites.Favorite>, name: string)
    requires Reflects(states, ids, names, favorites) && FindByDomain(favorites, name).None?
    ensures Reflects(states[name := false], ids, names + {name}, favorites)
  {
    var s2 := states[name := false];
    assert s2.Keys == names + {name};
    forall n | n in s2 ensures s2[n] <==> FindByDomain(favorites, n).Some? {
      if n != name {
        assert s2[n] == states[n];
      }
    }
  }

  /** The inner loop of `checkFavoriteStates`: each named domain of one
      suggestion gets its state, and its id when it is a favorite. */
  method RecordEntries(entries: seq<DomainEntry>, favorites: seq<Favorites.Favorite>,
                       states: map<string, bool>, ids: map<string, string>, ghost before: set<string>)
    returns (states': map<string, bool>, ids': map<string, string>)
    requires Reflects(states, ids, before, favorites)
    ensures Reflects(states', ids', before + EntryNames(entries), favorites)
  {
    states', ids' := states, ids;
    var j := 0;
    while j < |entries|
      invariant 0 <= j <= |entries|
      invariant Reflects(states', ids', before + EntryNames(entries[..j]), favorites)
    {
      ghost var seen := before + EntryNames(entries[..j]);
      var name := NameOf(entries[j]);
      if name.Some? {
        ReflectsRecord(states', ids', seen, favorites, name.value);
        var favorite := FindByDomain(favorites, name.value);
        if favorite.Some? {
          states' := states'[name.value := true];
          ids' := ids'[name.value := favorite.value.id];
        } else {
          states' := states'[name.value := false];
        }
      }
      EntryNamesSnoc(entries, j);
      assert before + EntryNames(entries[..j + 1]) == seen + NameSet(entries[j]);
      j := j + 1;
    }
    assert entries[..j] == entries;
  }

  lemma EntryNamesSnoc(entries: seq<DomainEntry>, j: nat)
    requires j < |entries|
    ensures EntryNames(entries[..j + 1]) == EntryNames(entries[..j]) + NameSet(entries[j])
  {
    assert entries[..j + 1][..j] == entries[..j];
  }

  /** The request a toggle makes. */
  datatype Call = NoCall | Remove(favoriteId: string) | Add(domain: string, isAvailable: Option<bool>)

  /** How the awaited request ended: a reply with `success`, carrying the new
      favorite's id when the server returned one; a reply without it; or a
      thrown error. */
  datatype Answer = Succeeded(favoriteId: Option<string>) | Refused(response: Generation.Json) | Threw

  /** The toast a finished toggle shows. */
  datatype Toast = Silent | Added(domain: string) | Removed(domain: string)
                 | AddFailed(description: Generation.Json) | RemoveFailed(description: Generation.Json)
                 | OperationFailed

  /** What a toggle asks for: remove a favorited domain with a stored id,
      nothing for a favorited one without, add any other. */
  function Planned(states: map<string, bool>, ids: map<string, string>, domain: string, isAvailable: Option<bool>): (c: Call)
    ensures c.Remove? <==> domain in states && states[domain] && domain in ids && ids[domain] != ""
    ensures c.Remove? ==> c.favoriteId == ids[domain]
    ensures c.NoCall? <==> domain in states && states[domain] && !(domain in ids && ids[domain] != "")
    ensures c.Add? ==> c == Add(domain, isAvailable)
  {
    if domain in states && states[domain] then
      if domain in ids && ids[domain] != "" then Remove(ids[domain]) else NoCall
    else Add(domain, isAvailable)
  }

  /** The state hooks of the component. */
  class Generator {
    var loading: bool
    var results: Option<Generation.Json>
    var favoriteStates: map<string, bool>
    var favoriteIds: map<string, string>
    var favoriting: set<string>

    ghost predicate Valid()
      reads this
    {
      Consistent(favoriteStates, favoriteIds)
    }

    constructor()
      ensures Valid()
      ensures !loading && results.None?
      ensures favoriteStates == map[] && favoriteIds == map[] && favoriting == {}
    {
      loading, results := false, None;
      favoriteStates, favoriteIds, favoriting := map[], map[], {};
    }

    /** The start of `onSubmit`: loading, with results, states and ids
        cleared before the request goes out; toggles in progress stay. */
    method BeginSubmit()
      modifies this
      ensures Valid()
      ensures loading && results.None?
      ensures favoriteStates == map[] && favoriteIds == map[]
      ensures favoriting == old(favoriting)
    {
      loading := true;
      results := None;
      favoriteStates := map[];
      favoriteIds := map[];
    }

    /** `checkFavoriteStates(suggestions)` once the favorites request has
        answered: `fetched` is the list it returned, `None` when it failed
        or threw, which leaves the maps as they were. */
    method CheckFavoriteStates(suggestions: seq<Suggestion>, fetched: Option<seq<Favorites.Favorite>>)
      modifies this
      ensures fetched.None? ==> favoriteStates == old(favoriteStates) && favoriteIds == old(favoriteIds)
      ensures fetched.Some? ==> Reflects(favoriteStates, favoriteIds, SuggestionNames(suggestions), fetched.value)
      ensures old(Valid()) ==> Valid()
      ensures loading == old(loading) && results == old(results) && favoriting == old(favoriting)
    {
      if fetched.None? {
        return;
      }
      var favorites := fetched.value;
      var favoriteMap: map<string, bool> := map[];
      var favoriteIdMap: map<string, string> := map[];
      var i := 0;
      while i < |suggestions|
        invariant 0 <= i <= |suggestions|
        modifies {}
        invariant Reflects(favoriteMap, favoriteIdMap, SuggestionNames(suggestions[..i]), favorites)
      {
        var entries := EntriesOf(suggestions[i]);
        favoriteMap, favoriteIdMap := RecordEntries(entries, favorites, favoriteMap, favoriteIdMap,
                                                    SuggestionNames(suggestions[..i]));
        assert suggestions[..i + 1][..i] == suggestions[..i];
        i := i + 1;
      }
      assert suggestions[..i] == suggestions;
      favoriteStates := favoriteMap;
      favoriteIds := favoriteIdMap;
      ReflectsConsistent(favoriteMap, favoriteIdMap, SuggestionNames(suggestions), favorites);
    }

    /** The synchronous part of `handleToggleFavorite`: an undefined or empty
        domain, or one whose toggle is still in progress, changes nothing and
        makes no request; otherwise the domain is marked in progress and the
        request `Planned` names is made. */
    method StartToggle(domain: Option<string>, isAvailable: Option<bool>) returns (call: Call)
      modifies this
      ensures !Truthy(domain) || domain.value in old(favoriting) ==> call == NoCall && favoriting == old(favoriting)
      ensures Truthy(domain) && domain.value !in old(favoriting) ==>
        call == Planned(old(favoriteStates), old(favoriteIds), domain.value, isAvailable)
        && favoriting == old(favoriting) + {domain.value}
      ensures favoriteStates == old(favoriteStates) && favoriteIds == old(favoriteIds)
      ensures loading == old(loading) && results == old(results)
    {
      call := NoCall;
      if !Truthy(domain) {
        return;
      }
      var domainKey := domain.value;
      if domainKey in favoriting {
        return;
      }
      favoriting := favoriting + {domainKey};
      call := Planned(favoriteStates, favoriteIds, domainKey, isAvailable);
    }

    /** The rest of `handleToggleFavorite`, once `call` has been answered:
        a successful remove clears the state and drops the id, a successful
        add sets the state and keeps the returned id when there is one,
        anything else changes no map; in every case the domain leaves the
        in-progress set. */
    method FinishToggle(domain: string, call: Call, answer: Answer) returns (toast: Toast)
      modifies this
      ensures favoriting == old(favoriting) - {domain}
      ensures call.Remove? && answer.Succeeded? ==>
        favoriteStates == old(favoriteStates)[domain := false]
        && favoriteIds == old(favoriteIds) - {domain}
        && toast == Removed(domain)
      ensures call.Add? && answer.Succeeded? ==>
        favoriteStates == old(favoriteStates)[domain := true]
        && favoriteIds == (if Truthy(answer.favoriteId) then old(favoriteIds)[domain := answer.favoriteId.value] else old(favoriteIds))
        && toast == Added(domain)
      ensures call.NoCall? || !answer.Succeeded? ==>
        favoriteStates == old(favoriteStates) && favoriteIds == old(favoriteIds)
      ensures call.NoCall? ==> toast == Silent
      ensures call.Remove? && answer.Refused? ==> toast == RemoveFailed(ApiClient.HandleApiError(answer.response))
      ensures call.Add? && answer.Refused? ==> toast == AddFailed(ApiClient.HandleApiError(answer.response))
      ensures !call.NoCall? && answer.Threw? ==> toast == OperationFailed
      ensures old(Valid()) ==> Valid()
      ensures loading == old(loading) && results == old(results)
    {
      toast := Silent;
      if !call.NoCall? {
        match answer
        case Threw =>
          toast := OperationFailed;
        case Refused(response) =>
          toast := if call.Remove? then RemoveFailed(ApiClient.HandleApiError(response))
                   else AddFailed(ApiClient.HandleApiError(response));
        case Succeeded(favoriteId) =>
          if call.Remove? {
            favoriteStates := favoriteStates[domain := false];
            favoriteIds := favoriteIds - {domain};
            toast := Removed(domain);
          } else {
            favoriteStates := favoriteStates[domain := true];
            if Truthy(favoriteId) {
              favoriteIds := favoriteIds[domain := favoriteId.value];
            }
            toast := Added(domain);
          }
      }
      favoriting := favoriting - {domain};
    }
  }

  /** A toggle that started while the same domain was in progress is
      refused: between `StartToggle` and `FinishToggle` of one domain a
      second click makes no request. Started twice in a row, the second
      call is `NoCall`. */
  method DoubleClick(g: Generator, domain: string, isAvailable: Option<bool>) returns (first: Call, second: Call)
    requires domain != "" && domain !in g.favoriting
    modifies g
    ensures second == NoCall
    ensures first == Planned(old(g.favoriteStates), old(g.favoriteIds), domain, isAvailable)
    ensures g.favoriting == old(g.favoriting) + {domain}
  {
    first := g.StartToggle(Some(domain), isAvailable);
    second := g.StartToggle(Some(domain), isAvailable);
  }

  /** The favorites `checkFavoriteStates` asks for, `limit: 1000`, are read
      by the handler as a page of 100: any limit of 100 or more, 1000 among
      them, gives only the user's 100 newest favorites to compare with the
      suggestions. */
  lemma CheckedFavoritesArePageOf100(limit: int)
    requires limit >= UserTables.MaxPageSize
    ensures UserTables.PageNumber(ApiClient.SentNumber(None)).Some?
    ensures UserTables.PageNumber(ApiClient.SentNumber(None)).value == 1
    ensures UserTables.PageSize(ApiClient.SentNumber(Some(limit)), Favorites.DefaultLimitText).Some?
    ensures UserTables.PageSize(ApiClient.SentNumber(Some(limit)), Favorites.DefaultLimitText).value
         == UserTables.MaxPageSize
  {
    ApiClient.PageReadBack(None);
    ApiClient.SentTextParses(limit);
    ApiClient.PageSizeOf(ApiClient.SentNumber(Some(limit)), Favorites.DefaultLimitText, limit);
  }
}
