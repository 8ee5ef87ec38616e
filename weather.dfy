/**
 * The in-memory weather forecast store: a list of forecast objects, the
 * counter that hands out their ids, and the `OnDataChange` event, whose
 * notifications are recorded in `changes` in the order they are raised.
 * Dates are day numbers; `DateTime.Now` and `Random.Shared` are parameters.
 */
module Weather {
  /** The ten summaries a seeded forecast picks from. */
  const Summaries: seq<string> :=
    ["Freezing", "Bracing", "Chilly", "Cool", "Mild", "Warm", "Balmy", "Hot", "Sweltering", "Scorching"]

  /** `WeatherForecast`: a mutable record shared by reference between the store and its callers. */
  class WeatherForecast {
    var id: int
    var date: int
    var temperatureC: int
    var summary: string

    constructor(id: int, date: int, temperatureC: int, summary: string)
      ensures this.id == id && this.date == date && this.temperatureC == temperatureC && this.summary == summary
    {
      this.id := id;
      this.date := date;
      this.temperatureC := temperatureC;
      this.summary := summary;
    }
  }

  /** The ids of the forecasts, in order. */
  function Ids(fs: seq<WeatherForecast>): (r: seq<int>)
    reads fs
    ensures |r| == |fs|
    ensures forall i :: 0 <= i < |fs| ==> r[i] == fs[i].id
  {
    seq(|fs|, i reads fs requires 0 <= i < |fs| => fs[i].id)
  }

  /** Ids at least 1, below the counter, and pairwise distinct. */
  predicate IdsValid(ids: seq<int>, nextId: int)
  {
    && nextId >= 1
    && (forall i :: 0 <= i < |ids| ==> 1 <= ids[i] < nextId)
    && (forall i, j :: 0 <= i < j < |ids| ==> ids[i] != ids[j])
  }

  /** The position of the first forecast with `id`, or `|fs|` when there is none. */
  function FirstIndex(fs: seq<WeatherForecast>, id: int): (k: nat)
    reads fs
    ensures k <= |fs|
    ensures k < |fs| <==> id in Ids(fs)
    ensures k < |fs| ==> fs[k].id == id
    ensures forall j :: 0 <= j < k ==> fs[j].id != id
    decreases |fs|
  {
    if fs == [] then 0
    else if fs[0].id == id then 0
    else 1 + FirstIndex(fs[1..], id)
  }

  /** The position of the first element that is the object `x` (`List.Remove` compares references). */
  function IndexOf(fs: seq<WeatherForecast>, x: WeatherForecast): (k: nat)
    ensures k <= |fs|
    ensures k < |fs| ==> fs[k] == x
    ensures forall j :: 0 <= j < k ==> fs[j] != x
    decreases |fs|
  {
    if fs == [] then 0
    else if fs[0] == x then 0
    else 1 + IndexOf(fs[1..], x)
  }

  /** `fs` without its element at `k`. */
  function RemoveAt<T>(fs: seq<T>, k: nat): (r: seq<T>)
    requires k < |fs|
    ensures |r| == |fs| - 1
    ensures forall j :: 0 <= j < k ==> r[j] == fs[j]
    ensures forall j :: k <= j < |r| ==> r[j] == fs[j + 1]
  {
    fs[..k] + fs[k + 1..]
  }

  class WeatherForecastRepository {
    /** `_forecasts`. */
    var forecasts: seq<WeatherForecast>
    /** `_nextId`. */
    var nextId: int
    /** Every forecast passed to `OnDataChange`, oldest first. */
    var changes: seq<WeatherForecast>

    /** Ids are at least 1, below the counter, and no two stored forecasts share one. */
    predicate Valid()
      reads this, forecasts
    {
      IdsValid(Ids(forecasts), nextId)
    }

    /**
     * Seeds five new forecasts with ids 1 to 5: the `index`-th is dated
     * `index` days after `now` and takes the `index`-th draw of
     * temperature (from -20 up to 54) and of summary position (below 10).
     */
    constructor(now: int, temperatures: seq<int>, summaryDraws: seq<int>)
      requires |temperatures| == 5 && |summaryDraws| == 5
      requires forall i :: 0 <= i < 5 ==> -20 <= temperatures[i] < 55
      requires forall i :: 0 <= i < 5 ==> 0 <= summaryDraws[i] < |Summaries|
      ensures Valid()
      ensures nextId == 6 && changes == [] && |forecasts| == 5
      ensures forall i :: 0 <= i < 5 ==> fresh(forecasts[i])
      ensures forall i :: 0 <= i < 5 ==>
                && forecasts[i].id == i + 1
                && forecasts[i].date == now + i + 1
                && forecasts[i].temperatureC == temperatures[i]
                && forecasts[i].summary == Summaries[summaryDraws[i]]
    {
      var seeded: seq<WeatherForecast> := [];
      var counter := 1;
      var index := 1;
      while index <= 5
        invariant 1 <= index <= 6 && counter == index && |seeded| == index - 1
        invariant forall i :: 0 <= i < |seeded| ==> fresh(seeded[i])
        invariant forall i :: 0 <= i < |seeded| ==>
                    && seeded[i].id == i + 1
                    && seeded[i].date == now + i + 1
                    && seeded[i].temperatureC == temperatures[i]
                    && seeded[i].summary == Summaries[summaryDraws[i]]
      {
        var f := new WeatherForecast(counter, now + index, temperatures[index - 1], Summaries[summaryDraws[index - 1]]);
        counter := counter + 1;
        seeded := seeded + [f];
        index := index + 1;
      }
      forecasts := seeded;
      nextId := counter;
      changes := [];
    }

    /** `GetById`: the first stored forecast with the id, or null. */
    function GetById(id: int): (r: WeatherForecast?)
      reads this, forecasts
      ensures r == null <==> id !in Ids(forecasts)
      ensures r != null ==> r.id == id && r == forecasts[FirstIndex(forecasts, id)]
    {
      var k := FirstIndex(forecasts, id);
      if k < |forecasts| then forecasts[k] else null
    }

    /**
     * `Add`: gives the caller's forecast the next id, appends that same object,
     * raises `OnDataChange` with it and returns it.
     */
    method Add(forecast: WeatherForecast) returns (r: WeatherForecast)
      requires Valid()
      modifies this, forecast
      ensures r == forecast
      ensures forecast.id == old(nextId) && nextId == old(nextId) + 1
      ensures forecast.date == old(forecast.date) && forecast.temperatureC == old(forecast.temperatureC)
      ensures forecast.summary == old(forecast.summary)
      ensures forecasts == old(forecasts) + [forecast]
      ensures changes == old(changes) + [forecast]
      ensures forecast !in old(forecasts) ==> Ids(forecasts) == old(Ids(forecasts)) + [forecast.id]
      ensures forecast !in old(forecasts) ==> Valid() && GetById(forecast.id) == forecast
    {
      ghost var before := forecasts;
      ghost var ids := Ids(forecasts);
      forecast.id := nextId;
      if forecast !in before {
        assert Ids(before) == ids;
      }
      nextId := nextId + 1;
      forecasts := forecasts + [forecast];
      changes := changes + [forecast];
      if forecast !in before {
        IdsSnoc(before, forecast);
        assert Ids(forecasts) == ids + [forecast.id];
        IdsValidAppend(ids, forecast.id);
        assert IdsValid(Ids(forecasts), nextId);
        FirstIndexOfFresh(forecasts, forecast.id);
      }
      return forecast;
    }

    /**
     * `Update`: null, and nothing changed or raised, when no stored forecast
     * has the argument's id; otherwise the date, temperature and summary of
     * the first one are overwritten, `OnDataChange` is raised with it, and it
     * is returned.
     */
    method Update(forecast: WeatherForecast) returns (r: WeatherForecast?)
      requires Valid()
      modifies forecasts, this
      ensures forecasts == old(forecasts) && nextId == old(nextId)
      ensures Ids(forecasts) == old(Ids(forecasts))
      ensures r == null <==> forecast.id !in Ids(forecasts)
      ensures r == null ==> changes == old(changes)
      ensures r == null ==> forall i :: 0 <= i < |forecasts| ==>
                forecasts[i].date == old(forecasts[i].date) && forecasts[i].temperatureC == old(forecasts[i].temperatureC)
                && forecasts[i].summary == old(forecasts[i].summary)
      ensures r != null ==> r in forecasts && r.id == forecast.id
      ensures r != null ==> r.date == old(forecast.date) && r.temperatureC == old(forecast.temperatureC)
                            && r.summary == old(forecast.summary)
      ensures r != null ==> changes == old(changes) + [r]
      ensures r != null ==> forall i :: 0 <= i < |forecasts| && forecasts[i] != r ==>
                forecasts[i].date == old(forecasts[i].date) && forecasts[i].temperatureC == old(forecasts[i].temperatureC)
                && forecasts[i].summary == old(forecasts[i].summary)
      ensures Valid()
    {
      var existing := GetById(forecast.id);
      if existing == null {
        return null;
      }
      var date, temperatureC, summary := forecast.date, forecast.temperatureC, forecast.summary;
      existing.date := date;
      existing.temperatureC := temperatureC;
      existing.summary := summary;
      changes := changes + [existing];
      return existing;
    }

    /**
     * `Delete`: false, and nothing changed or raised, when no stored forecast
     * has the id; otherwise the first one is removed from the list,
     * `OnDataChange` is raised with it, and the answer is true.
     */
    method Delete(id: int) returns (deleted: bool)
      requires Valid()
      modifies this
      ensures nextId == old(nextId)
      ensures deleted <==> id in old(Ids(forecasts))
      ensures !deleted ==> forecasts == old(forecasts) && changes == old(changes)
      ensures deleted ==> var k := FirstIndex(old(forecasts), id);
                          && forecasts == RemoveAt(old(forecasts), k)
                          && Ids(forecasts) == RemoveAt(old(Ids(forecasts)), k)
                          && changes == old(changes) + [old(forecasts)[k]]
      ensures Valid()
      ensures GetById(id) == null
    {
      var forecast := GetById(id);
      if forecast == null {
        return false;
      }
      var k := FirstIndex(forecasts, id);
      ghost var ids := Ids(forecasts);
      DistinctIdsDistinctObjects(forecasts, k);
      var at := IndexOf(forecasts, forecast);
      forecasts := RemoveAt(forecasts, at);
      changes := changes + [forecast];
      assert Ids(forecasts) == RemoveAt(ids, k);
      IdsValidRemove(ids, k, nextId);
      return true;
    }
  }

  lemma IdsSnoc(fs: seq<WeatherForecast>, x: WeatherForecast)
    ensures Ids(fs + [x]) == Ids(fs) + [x.id]
  {
  }

  /** Appending the counter's id keeps the ids valid under the next counter. */
  lemma IdsValidAppend(ids: seq<int>, nextId: int)
    requires IdsValid(ids, nextId)
    ensures IdsValid(ids + [nextId], nextId + 1)
  {
  }

  /** Removing one id keeps the rest valid, and with distinct ids the removed one is gone. */
  lemma IdsValidRemove(ids: seq<int>, k: nat, nextId: int)
    requires k < |ids| && IdsValid(ids, nextId)
    ensures IdsValid(RemoveAt(ids, k), nextId) && ids[k] !in RemoveAt(ids, k)
  {
    var r := RemoveAt(ids, k);
    assert forall i :: 0 <= i < |r| ==> r[i] == ids[if i < k then i else i + 1];
  }

  /** With distinct ids, the first element that is `fs[k]` is at `k`. */
  lemma DistinctIdsDistinctObjects(fs: seq<WeatherForecast>, k: nat)
    requires k < |fs|
    requires forall i, j :: 0 <= i < j < |Ids(fs)| ==> Ids(fs)[i] != Ids(fs)[j]
    ensures IndexOf(fs, fs[k]) == k
  {
    assert forall i :: 0 <= i < |fs| ==> Ids(fs)[i] == fs[i].id;
  }

  /** An id held only by the last forecast is found there. */
  lemma FirstIndexOfFresh(fs: seq<WeatherForecast>, id: int)
    requires fs != [] && fs[|fs| - 1].id == id && id !in Ids(fs[..|fs| - 1])
    ensures FirstIndex(fs, id) == |fs| - 1
  {
    var init := fs[..|fs| - 1];
    assert forall j :: 0 <= j < |init| ==> fs[j].id == Ids(init)[j];
  }
}
