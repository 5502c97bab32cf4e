/** The country and city table of frontend/src/data/locations.ts and its three
    lookups. */
module Locations {
  import opened Wrappers

  /** `LocationData`. */
  datatype Row = Row(country: string, cities: seq<string>)

  const LocationTable: seq<Row> := [
    Row("中国", ["北京", "上海", "广州", "深圳", "杭州", "成都", "西安", "武汉", "南京", "重庆",
                "天津", "苏州", "长沙", "郑州", "青岛", "大连", "宁波", "厦门"]),
    Row("美国", ["纽约", "洛杉矶", "芝加哥", "休斯顿", "费城", "凤凰城", "圣安东尼奥", "圣地亚哥",
                "达拉斯", "圣何塞"]),
    Row("日本", ["东京", "大阪", "横滨", "名古屋", "札幌", "神户", "京都", "福冈", "川崎", "埼玉"]),
    Row("英国", ["伦敦", "伯明翰", "利兹", "格拉斯哥", "谢菲尔德", "布拉德福德", "爱丁堡", "利物浦",
                "曼彻斯特"]),
    Row("法国", ["巴黎", "马赛", "里昂", "图卢兹", "尼斯", "南特", "斯特拉斯堡", "蒙彼利埃", "波尔多"]),
    Row("德国", ["柏林", "汉堡", "慕尼黑", "科隆", "法兰克福", "斯图加特", "杜塞尔多夫", "多特蒙德",
                "埃森"]),
    Row("澳大利亚", ["悉尼", "墨尔本", "布里斯班", "珀斯", "阿德莱德", "黄金海岸", "纽卡斯尔", "堪培拉",
                    "卧龙岗"]),
    Row("加拿大", ["多伦多", "蒙特利尔", "温哥华", "卡尔加里", "埃德蒙顿", "渥太华", "魁北克市", "温尼伯",
                  "哈密尔顿"])
  ]

  /** The number of cities over all rows. */
  function CityCount(rows: seq<Row>): nat {
    if rows == [] then 0 else |rows[0].cities| + CityCount(rows[1..])
  }

  /** `flatMap(location => location.cities)`: the rows' city lists one after the
      other. */
  function Flatten(rows: seq<Row>): seq<string> {
    if rows == [] then [] else rows[0].cities + Flatten(rows[1..])
  }

  /** The concatenation has as many cities as the rows together. */
  lemma {:induction false} FlattenLength(rows: seq<Row>)
    ensures |Flatten(rows)| == CityCount(rows)
  {
    if rows != [] {
      FlattenLength(rows[1..]);
    }
  }

  /** Every city of every row is in the concatenation. */
  lemma {:induction false} FlattenHasRow(rows: seq<Row>, i: nat, city: string)
    requires i < |rows| && city in rows[i].cities
    ensures city in Flatten(rows)
  {
    if i > 0 {
      FlattenHasRow(rows[1..], i - 1, city);
    }
  }

  /** Every city in the concatenation comes from some row. */
  lemma {:induction false} FlattenFromRow(rows: seq<Row>, city: string)
    requires city in Flatten(rows)
    ensures exists i :: 0 <= i < |rows| && city in rows[i].cities
  {
    if city !in rows[0].cities {
      FlattenFromRow(rows[1..], city);
      var i :| 0 <= i < |rows[1..]| && city in rows[1..][i].cities;
      assert rows[i + 1] == rows[1..][i];
    }
  }

  /** `getAllCities`. */
  function AllCities(): (r: seq<string>)
    ensures |r| == CityCount(LocationTable)
  {
    FlattenLength(LocationTable);
    Flatten(LocationTable)
  }

  /** Position of the first row of the country. */
  function FindCountry(rows: seq<Row>, country: string): (r: Option<nat>)
    ensures r.Some? ==> r.value < |rows| && rows[r.value].country == country
    ensures r.Some? ==> forall i :: 0 <= i < r.value ==> rows[i].country != country
    ensures r.None? ==> forall i :: 0 <= i < |rows| ==> rows[i].country != country
  {
    if rows == [] then None
    else if rows[0].country == country then Some(0)
    else match FindCountry(rows[1..], country)
      case None => None
      case Some(i) => Some(i + 1)
  }

  /** No country has two rows. */
  predicate CountriesUnique(rows: seq<Row>) {
    forall i, j :: 0 <= i < j < |rows| ==> rows[i].country != rows[j].country
  }

  /** The table lists each country once. */
  lemma TableCountriesUnique()
    ensures CountriesUnique(LocationTable)
  {
    forall i, j | 0 <= i < j < |LocationTable| ensures LocationTable[i].country != LocationTable[j].country {
      assert LocationTable[i].country[0] != LocationTable[j].country[0] || LocationTable[i].country[1] != LocationTable[j].country[1];
    }
  }

  /** `getCitiesByCountry`: the cities of the row of a listed country, `[]` for any
      other text. */
  function CitiesByCountry(country: string): (r: seq<string>)
    ensures forall i :: 0 <= i < |LocationTable| && LocationTable[i].country == country ==>
      r == LocationTable[i].cities
    ensures (forall i :: 0 <= i < |LocationTable| ==> LocationTable[i].country != country) ==> r == []
  {
    TableCountriesUnique();
    match FindCountry(LocationTable, country)
    case Some(i) =>
      assert forall k :: 0 <= k < |LocationTable| && LocationTable[k].country == country ==> k == i;
      LocationTable[i].cities
    case None => []
  }

  /** `getCountries`: one country per row, in table order. */
  function Countries(): (r: seq<string>)
    ensures |r| == |LocationTable|
    ensures forall i :: 0 <= i < |r| ==> r[i] == LocationTable[i].country
  {
    seq(|LocationTable|, i requires 0 <= i < |LocationTable| => LocationTable[i].country)
  }

  /** The cities of any country are among all cities. */
  lemma CitiesOfCountryAreListed(country: string, city: string)
    requires city in CitiesByCountry(country)
    ensures city in AllCities()
  {
    var i := FindCountry(LocationTable, country).value;
    FlattenHasRow(LocationTable, i, city);
  }

  /** Every listed city belongs to the country of some row. */
  lemma ListedCityHasCountry(city: string)
    requires city in AllCities()
    ensures exists c :: c in Countries() && city in CitiesByCountry(c)
  {
    FlattenFromRow(LocationTable, city);
    var i :| 0 <= i < |LocationTable| && city in LocationTable[i].cities;
    var c := LocationTable[i].country;
    assert Countries()[i] == c;
    assert CitiesByCountry(c) == LocationTable[i].cities;
  }
}
