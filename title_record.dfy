/** One row of the titles dataset as the CSV parser hands it over: an object
    whose keys are the header's column names, in column order, each holding a
    string. The named columns (`show_id`, `type`, `title`, `director`, `cast`,
    `country`, `release_year`, `rating`, `duration`, `description`,
    `random_rating`) sit beside one "0"/"1" column per genre. A column the row
    lacks reads as `undefined`. */
module TitleRecord {
  import opened Wrappers
  import opened Text
  import opened Seqs

  datatype Field = Field(key: string, value: string)
  datatype Row = Row(fields: seq<Field>)

  function GetIn(fs: seq<Field>, key: string): (v: Option<string>)
    ensures v.Some? <==> exists f :: f in fs && f.key == key
    ensures v.Some? ==> Field(key, v.value) in fs
  {
    if fs == [] then None
    else if fs[0].key == key then Some(fs[0].value)
    else GetIn(fs[1..], key)
  }

  /** `row[key]`: the value of the first column called `key`, or `undefined`. */
  function Get(r: Row, key: string): Option<string> {
    GetIn(r.fields, key)
  }

  function KeysIn(fs: seq<Field>): (ks: seq<string>)
    ensures |ks| == |fs|
    ensures forall i :: 0 <= i < |fs| ==> ks[i] == fs[i].key
  {
    if fs == [] then [] else [fs[0].key] + KeysIn(fs[1..])
  }

  /** `Object.keys(row)`: the column names in column order. */
  function Keys(r: Row): (ks: seq<string>)
    ensures forall k :: k in ks <==> Get(r, k).Some?
  {
    var ks := KeysIn(r.fields);
    assert forall k :: k in ks <==> exists f :: f in r.fields && f.key == k by {
      forall k ensures k in ks <==> exists f :: f in r.fields && f.key == k {
        if k in ks {
          var i :| 0 <= i < |ks| && ks[i] == k;
          assert r.fields[i] in r.fields;
        }
        if exists f :: f in r.fields && f.key == k {
          var f :| f in r.fields && f.key == k;
          var i :| 0 <= i < |r.fields| && r.fields[i] == f;
          assert ks[i] == k;
        }
      }
    }
    ks
  }

  /** `row.title`, read only where it is known to be present. */
  function TitleOf(r: Row): string {
    Get(r, "title").GetOr("")
  }

  /** `row.title` is defined, so `row.title.toLowerCase()` does not throw. */
  predicate Titled(r: Row) {
    Get(r, "title").Some?
  }

  predicate AllTitled(rows: seq<Row>) {
    forall r :: r in rows ==> Titled(r)
  }

  /** `row.title?.trim()` is truthy: the title is present and not blank. */
  predicate HasTitle(r: Row) {
    Get(r, "title").Some? && Trim(Get(r, "title").value) != ""
  }

  predicate IsTvShow(r: Row) {
    Get(r, "type") == Some("TV Show")
  }

  /** `row[genre] === '1'`. */
  predicate Flagged(r: Row, genre: string) {
    Get(r, genre) == Some("1")
  }

  /** `Object.keys(movie).filter(key => genres.includes(key) && movie[key] === '1')`:
      the row's flagged genres, in column order. */
  function ActiveGenres(r: Row, genres: seq<string>): (g: seq<string>)
    ensures forall k :: k in g <==> k in genres && Flagged(r, k)
    ensures forall k :: multiset(g)[k] == if k in genres && Flagged(r, k) then multiset(Keys(r))[k] else 0
    ensures Subsequence(g, Keys(r))
  {
    var p := k => k in genres && Flagged(r, k);
    var g := Filter(Keys(r), p);
    forall k ensures multiset(g)[k] == if p(k) then multiset(Keys(r))[k] else 0 {
      FilterCount(Keys(r), p, k);
    }
    FilterSubsequence(Keys(r), p);
    g
  }
}
