/** The snippet corpus of src/snippets.rs: the three practice languages, their
    menu order, and the lookup that picks one pool entry and strips the
    newlines around it. The random generator is replaced by a caller-supplied
    natural `pick`; entry `pick % |pool|` is chosen, so every entry is reachable. */
module Snippets {

  datatype Language = English | Rust | Python

  /** The label shown in the menu for each language. */
  function Label(lang: Language): (s: string)
    ensures |s| > 0
  {
    match lang
    case English => "English"
    case Rust => "Rust"
    case Python => "Python"
  }

  /** No two languages share a label. */
  lemma LabelsDistinct(a: Language, b: Language)
    ensures Label(a) == Label(b) ==> a == b
  {
  }

  /** Menu order of the languages. */
  const MenuOptions: seq<Language> := [English, Rust, Python]

  /** Where `lang` sits in the menu: each language is listed, at exactly one index. */
  function MenuIndexOf(lang: Language): (i: nat)
    ensures i < |MenuOptions| && MenuOptions[i] == lang
    ensures forall j :: 0 <= j < |MenuOptions| && MenuOptions[j] == lang ==> j == i
  {
    match lang
    case English => 0
    case Rust => 1
    case Python => 2
  }

  const EnglishPool: seq<string> := [
    "the quick brown fox jumps over the lazy dog near the riverbank",
    "practice makes perfect and consistency is the key to mastery",
    "a journey of a thousand miles begins with a single step forward",
    "the only way to do great work is to love what you do every day",
    "simplicity is the ultimate sophistication in both design and code",
    "every expert was once a beginner who refused to give up on learning",
    "typing fast is not about speed alone but about accuracy and rhythm",
    "the best time to plant a tree was twenty years ago the second best time is now",
    "focus on being productive instead of busy and results will follow naturally",
    "do not wait to strike until the iron is hot but make it hot by striking"
  ]

  const RustPool: seq<string> := [
      "fn main() {\n" +
      "    let numbers = vec![1, 2, 3, 4, 5];\n" +
      "    let sum: i32 = numbers.iter().sum();\n" +
      "    println!(\"Sum: {}\", sum);\n" +
      "}",
      "fn fibonacci(n: u64) -> u64 {\n" +
      "    match n {\n" +
      "        0 => 0,\n" +
      "        1 => 1,\n" +
      "        _ => fibonacci(n - 1) + fibonacci(n - 2),\n" +
      "    }\n" +
      "}",
      "use std::collections::HashMap;\n" +
      "\n" +
      "fn word_count(text: &str) -> HashMap<&str, usize> {\n" +
      "    let mut map = HashMap::new();\n" +
      "    for word in text.split_whitespace() {\n" +
      "        *map.entry(word).or_insert(0) += 1;\n" +
      "    }\n" +
      "    map\n" +
      "}"
  ]

  const PythonPool: seq<string> := [
      "def fibonacci(n):\n" +
      "    if n <= 1:\n" +
      "        return n\n" +
      "    a, b = 0, 1\n" +
      "    for _ in range(n - 1):\n" +
      "        a, b = b, a + b\n" +
      "    return b",
      "from collections import Counter\n" +
      "\n" +
      "def most_common(words):\n" +
      "    count = Counter(words)\n" +
      "    return count.most_common(3)",
      "def binary_search(arr, target):\n" +
      "    left, right = 0, len(arr) - 1\n" +
      "    while left <= right:\n" +
      "        mid = (left + right) // 2\n" +
      "        if arr[mid] == target:\n" +
      "            return mid\n" +
      "        elif arr[mid] < target:\n" +
      "            left = mid + 1\n" +
      "        else:\n" +
      "            right = mid - 1\n" +
      "    return -1"
  ]

  /** A string that neither starts nor ends with a newline (and is not empty). */
  predicate Clean(s: string)
  {
    |s| > 0 && s[0] != '\n' && s[|s| - 1] != '\n'
  }

  /** A string whose last character is not a newline. */
  predicate ClosesWithText(s: string)
  {
    |s| > 0 && s[|s| - 1] != '\n'
  }

  /** The pool each language draws from. Every pool is non-empty, so the
      choice in `RandomSnippet` always has an entry to return, and every
      entry closes with text, so trimming it leaves something to type. */
  function Pool(lang: Language): (p: seq<string>)
    ensures |p| > 0
    ensures forall i :: 0 <= i < |p| ==> ClosesWithText(p[i])
  {
    match lang
    case English => EnglishClosesWithText(); EnglishPool
    case Rust => RustClosesWithText(); RustPool
    case Python => PythonClosesWithText(); PythonPool
  }

  /** The entries of each pool, checked one by one. */
  lemma EnglishClosesWithText()
    ensures forall i :: 0 <= i < |EnglishPool| ==> ClosesWithText(EnglishPool[i])
  {
  }

  lemma RustClosesWithText()
    ensures forall i :: 0 <= i < |RustPool| ==> ClosesWithText(RustPool[i])
  {
  }

  lemma PythonClosesWithText()
    ensures forall i :: 0 <= i < |PythonPool| ==> ClosesWithText(PythonPool[i])
  {
  }

  /** The length of the leading run of newlines in `s`. */
  function LeadingNewlines(s: string): (n: nat)
    ensures n <= |s|
    ensures forall k :: 0 <= k < n ==> s[k] == '\n'
    ensures n < |s| ==> s[n] != '\n'
    decreases |s|
  {
    if |s| > 0 && s[0] == '\n' then 1 + LeadingNewlines(s[1..]) else 0
  }

  /** Drops the trailing run of newlines: what is left is a prefix of `s`, the
      dropped suffix is all newlines, and the prefix does not end with one. */
  function TrimEnd(s: string): (r: string)
    ensures |r| <= |s| && r == s[..|r|]
    ensures forall k :: |r| <= k < |s| ==> s[k] == '\n'
    ensures r == [] || r[|r| - 1] != '\n'
    decreases |s|
  {
    if |s| > 0 && s[|s| - 1] == '\n' then TrimEnd(s[..|s| - 1]) else s
  }

  /** `str::trim_matches('\n')`: removes the maximal leading and trailing runs
      of newlines and keeps everything between them, in order. */
  function Trim(s: string): (r: string)
    ensures r == [] || (r[0] != '\n' && r[|r| - 1] != '\n')
    ensures LeadingNewlines(s) + |r| <= |s|
    ensures r == s[LeadingNewlines(s)..LeadingNewlines(s) + |r|]
    ensures forall k :: LeadingNewlines(s) + |r| <= k < |s| ==> s[k] == '\n'
  {
    var lo := LeadingNewlines(s);
    TrimEnd(s[lo..])
  }

  /** `random_snippet`: the trimmed entry of the language's pool at the
      position the random draw selects. */
  function RandomSnippet(lang: Language, pick: nat): (s: string)
    ensures Clean(s)
    ensures exists i :: 0 <= i < |Pool(lang)| && s == Trim(Pool(lang)[i])
  {
    var pool := Pool(lang);
    var i := pick % |pool|;
    TrimKeepsText(pool[i]);
    Trim(pool[i])
  }

  /** A string that closes with text keeps that text when trimmed. */
  lemma TrimKeepsText(s: string)
    requires ClosesWithText(s)
    ensures Trim(s) != []
  {
  }

  /** Trimming a clean string changes nothing. */
  lemma TrimOfClean(s: string)
    requires Clean(s)
    ensures Trim(s) == s
  {
  }

  /** Trimming twice is trimming once. */
  lemma TrimIdempotent(s: string)
    ensures Trim(Trim(s)) == Trim(s)
  {
  }

  /** Every pool entry can be drawn: the draw `pick == i` returns entry `i`, trimmed. */
  lemma EveryEntryReachable(lang: Language, i: nat)
    requires i < |Pool(lang)|
    ensures RandomSnippet(lang, i) == Trim(Pool(lang)[i])
  {
    var pool := Pool(lang);
    assert i % |pool| == i;
  }
}
