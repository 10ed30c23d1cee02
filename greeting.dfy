/**
 * `getGreetingFromCountry`: upper-case the country code, look it up in a table built
 * with `new Map([...])`, and fall back to "Hello" when the lookup gives a falsy value
 * (no entry, or an empty string).
 */
module Greeting {
  import opened JsText

  const DefaultGreeting: string := "Hello"

  /** The pairs handed to the Map constructor, in source order. "SG" occurs twice. */
  const LanguageEntries: seq<(string, string)> := [
    ("FR", "Bonjour"),
    ("DE", "Hallo"),
    ("IT", "Ciao"),
    ("ES", "Hola"),
    ("PT", "Olá"),
    ("RU", "Здравствуйте"),
    ("TR", "Merhaba"),
    ("PL", "Cześć"),
    ("MX", "Hola"),
    ("AR", "Hola"),
    ("NL", "Hallo"),
    ("BE", "Hallo"),
    ("DK", "Hej"),
    ("NO", "Hei"),
    ("SE", "Hej"),
    ("FI", "Hei"),
    ("JP", "こんにちは"),
    ("KR", "안녕하세요"),
    ("CN", "你好"),
    ("TW", "你好"),
    ("HK", "你好"),
    ("SG", "你好"),
    ("MY", "Selamat Pagi"),
    ("ID", "Selamat Pagi"),
    ("TH", "สวัสดี"),
    ("VN", "Chào bạn"),
    ("PH", "Kumusta"),
    ("IN", "Namaste"),
    ("AU", "G'day"),
    ("NZ", "G'day"),
    ("CA", "Hello"),
    ("US", "Hello"),
    ("GB", "Hello"),
    ("IE", "Hello"),
    ("SG", "Hello")
  ]

  /** Some entry of `entries` has key `k`. */
  predicate HasKey(entries: seq<(string, string)>, k: string) {
    exists i :: 0 <= i < |entries| && entries[i].0 == k
  }

  /** `i` is the position of the last entry of `entries` whose key is `k`. */
  predicate IsLastIndex(entries: seq<(string, string)>, k: string, i: int) {
    0 <= i < |entries| && entries[i].0 == k &&
    forall j :: i < j < |entries| ==> entries[j].0 != k
  }

  /**
   * `new Map(entries)`: the entries are set one after another, so an entry replaces
   * any earlier entry with the same key. The keys are exactly the entries' keys.
   */
  function MapFromEntries(entries: seq<(string, string)>): (m: map<string, string>)
    ensures forall k :: k in m <==> HasKey(entries, k)
  {
    if entries == [] then map[]
    else
      var last := entries[|entries| - 1];
      var m' := MapFromEntries(entries[..|entries| - 1]);
      assert forall k :: HasKey(entries, k) <==> HasKey(entries[..|entries| - 1], k) || k == last.0 by {
        forall k | HasKey(entries, k) && k != last.0
          ensures HasKey(entries[..|entries| - 1], k)
        {
          var i :| 0 <= i < |entries| && entries[i].0 == k;
          assert entries[..|entries| - 1][i] == entries[i];
        }
        forall k | HasKey(entries[..|entries| - 1], k) ensures HasKey(entries, k) {
          var i :| 0 <= i < |entries| - 1 && entries[..|entries| - 1][i].0 == k;
          assert entries[i].0 == k;
        }
      }
      m'[last.0 := last.1]
  }

  /** The last entry for a key is the one the map keeps. */
  lemma {:induction false} MapFromEntriesLastWins(entries: seq<(string, string)>, k: string, i: int)
    requires IsLastIndex(entries, k, i)
    ensures k in MapFromEntries(entries) && MapFromEntries(entries)[k] == entries[i].1
  {
    var n := |entries| - 1;
    if i < n {
      var prefix := entries[..n];
      assert IsLastIndex(prefix, k, i) by {
        forall j | i < j < |prefix| ensures prefix[j].0 != k {
          assert prefix[j] == entries[j];
        }
      }
      MapFromEntriesLastWins(prefix, k, i);
    }
  }

  /** The table `languageMap`. */
  function LanguageMap(): map<string, string> {
    MapFromEntries(LanguageEntries)
  }

  /** Every greeting in the table is non-empty. */
  lemma LanguageEntriesNonEmpty()
    ensures forall i :: 0 <= i < |LanguageEntries| ==> LanguageEntries[i].1 != ""
  {
  }

  /** Every key in the table is two capital ASCII letters. */
  lemma LanguageKeysAreCountryCodes()
    ensures forall i :: 0 <= i < |LanguageEntries| ==>
      |LanguageEntries[i].0| == 2 && IsUpperAscii(LanguageEntries[i].0[0]) && IsUpperAscii(LanguageEntries[i].0[1])
  {
  }

  /** A code that is not two characters long is never in the table. */
  lemma NonTwoCharacterCodeUnmapped(countryCode: string)
    requires IsAscii(countryCode) && |countryCode| != 2
    ensures GetGreetingFromCountry(countryCode) == DefaultGreeting
  {
    LanguageKeysAreCountryCodes();
  }

  /** `getGreetingFromCountry(countryCode)`. */
  function GetGreetingFromCountry(countryCode: string): (r: string)
    requires IsAscii(countryCode)
    ensures r != ""

  {
    var key := ToUpper(countryCode);
    var found := if key in LanguageMap() then Some(LanguageMap()[key]) else None;
    if found.Some? && found.value != "" then found.value else DefaultGreeting
  }

  /** A key that occurs in `entries` has a last occurrence. */
  lemma {:induction false} LastIndexExists(entries: seq<(string, string)>, k: string)
    requires HasKey(entries, k)
    ensures exists i :: IsLastIndex(entries, k, i)
  {
    var n := |entries| - 1;
    if entries[n].0 == k {
      assert IsLastIndex(entries, k, n);
    } else {
      var prefix := entries[..n];
      var j :| 0 <= j < |entries| && entries[j].0 == k;
      assert prefix[j].0 == k;
      LastIndexExists(prefix, k);
      var i :| IsLastIndex(prefix, k, i);
      assert IsLastIndex(entries, k, i);
    }
  }

  /** A code whose upper-cased form is in the table gets the table's last value for it. */
  lemma GreetingOfMappedCode(countryCode: string, i: int)
    requires IsAscii(countryCode) && IsLastIndex(LanguageEntries, ToUpper(countryCode), i)
    ensures GetGreetingFromCountry(countryCode) == LanguageEntries[i].1
  {
    MapFromEntriesLastWins(LanguageEntries, ToUpper(countryCode), i);
    LanguageEntriesNonEmpty();
  }

  /** A code whose upper-cased form is not in the table gets "Hello". */
  lemma GreetingOfUnmappedCode(countryCode: string)
    requires IsAscii(countryCode) && !HasKey(LanguageEntries, ToUpper(countryCode))
    ensures GetGreetingFromCountry(countryCode) == DefaultGreeting
  {
  }

  /** Every greeting is the fallback or one of the table's values. */
  lemma GreetingComesFromTable(countryCode: string)
    requires IsAscii(countryCode)
    ensures GetGreetingFromCountry(countryCode) == DefaultGreeting
         || exists i :: 0 <= i < |LanguageEntries| && GetGreetingFromCountry(countryCode) == LanguageEntries[i].1
  {
    var key := ToUpper(countryCode);
    if HasKey(LanguageEntries, key) {
      LastIndexExists(LanguageEntries, key);
      var i :| IsLastIndex(LanguageEntries, key, i);
      GreetingOfMappedCode(countryCode, i);
    }
  }

  /** The lookup ignores case. */
  lemma GreetingIgnoresCase(countryCode: string)
    requires IsAscii(countryCode)
    ensures GetGreetingFromCountry(countryCode) == GetGreetingFromCountry(ToUpper(countryCode))
  {
    ToUpperIdempotent(countryCode);
  }

  /** "FR" and "fr" both give "Bonjour". */
  lemma FranceGreeting()
    ensures GetGreetingFromCountry("FR") == "Bonjour"
    ensures GetGreetingFromCountry("fr") == "Bonjour"
  {
    assert ToUpper("FR") == "FR" && ToUpper("fr") == "FR";
    assert IsLastIndex(LanguageEntries, "FR", 0);
    GreetingOfMappedCode("FR", 0);
    GreetingOfMappedCode("fr", 0);
  }

  /** "JP" gives "こんにちは". */
  lemma JapanGreeting()
    ensures GetGreetingFromCountry("JP") == "こんにちは"
  {
    assert ToUpper("JP") == "JP";
    assert IsLastIndex(LanguageEntries, "JP", 16);
    GreetingOfMappedCode("JP", 16);
  }

  /** A code missing from the table, such as "ZZ", gives "Hello". */
  lemma UnknownCodeExample()
    ensures GetGreetingFromCountry("ZZ") == DefaultGreeting
  {
    assert ToUpper("ZZ") == "ZZ";
    assert !HasKey(LanguageEntries, "ZZ");
  }

  /**
   * "SG" is listed twice, first with "你好" and last with "Hello"; the later entry
   * wins, so Singapore is greeted with "Hello".
   */
  lemma SingaporeLaterEntryWins()
    ensures LanguageEntries[21] == ("SG", "你好") && LanguageEntries[34] == ("SG", "Hello")
    ensures GetGreetingFromCountry("SG") == "Hello"
    ensures GetGreetingFromCountry("sg") == "Hello"
  {
    assert ToUpper("SG") == "SG" && ToUpper("sg") == "SG";
    assert IsLastIndex(LanguageEntries, "SG", 34);
    GreetingOfMappedCode("SG", 34);
    GreetingOfMappedCode("sg", 34);
  }
}
