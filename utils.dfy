/** The constants of `client/src/lib/utils.ts` that the pages share. */
module Utils {
  /** `disallowedCharactersInURL`: characters a username may not contain
      because they would break the `/:username/...` routes. */
  const DisallowedCharactersInUrl: seq<char> :=
    [' ', '<', '>', '#', '%', '{', '}', '|', '\\', '^', '~', '[', ']', '`']

  /** `CATEGORIES`: the blog categories a reader or writer can choose. */
  const Categories: seq<string> := [
    "Technology", "Science", "Travel", "Food & Cooking", "Health & Fitness",
    "Fashion & Style", "Anime News", "Manga", "Anime Reviews", "Cosplay",
    "Anime Recommendations", "Anime Memes", "Fan Art", "Anime Music",
    "Anime Conventions", "Coding Challenges", "Web Development",
    "Mobile App Development", "Software Engineering", "Programming Languages",
    "Algorithms & Data Structures", "Developer Tools & Libraries", "Tech News",
    "Arts & Crafts", "Business & Finance", "Sports", "Music", "Movies & TV Shows",
    "Books & Literature", "Gaming", "Home & Garden", "Photography",
    "Pets & Animals", "DIY & How-To Guides", "Education & Learning", "Parenting",
    "Environment & Sustainability"]

  /** A category name survives a comma-separated list: non-empty, no comma. */
  predicate ListItem(s: string)
  {
    s != "" && ',' !in s
  }

  lemma CategoriesCommaFree0To4()
    ensures forall i :: 0 <= i < 4 ==> ListItem(Categories[i])
  {
  }

  lemma CategoriesCommaFree4To8()
    ensures forall i :: 4 <= i < 8 ==> ListItem(Categories[i])
  {
  }

  lemma CategoriesCommaFree8To12()
    ensures forall i :: 8 <= i < 12 ==> ListItem(Categories[i])
  {
  }

  lemma CategoriesCommaFree12To16()
    ensures forall i :: 12 <= i < 16 ==> ListItem(Categories[i])
  {
  }

  lemma CategoriesCommaFree16To20()
    ensures forall i :: 16 <= i < 20 ==> ListItem(Categories[i])
  {
  }

  lemma CategoriesCommaFree20To24()
    ensures forall i :: 20 <= i < 24 ==> ListItem(Categories[i])
  {
  }

  lemma CategoriesCommaFree24To28()
    ensures forall i :: 24 <= i < 28 ==> ListItem(Categories[i])
  {
  }

  lemma CategoriesCommaFree28To32()
    ensures forall i :: 28 <= i < 32 ==> ListItem(Categories[i])
  {
  }

  lemma CategoriesCommaFree32To36()
    ensures forall i :: 32 <= i < 36 ==> ListItem(Categories[i])
  {
  }

  lemma CategoriesCommaFree36To37()
    ensures forall i :: 36 <= i < 37 ==> ListItem(Categories[i])
  {
  }

  /** Every category is a non-empty name without a comma, so a list of them
      survives a comma-separated encoding. */
  lemma CategoriesCommaFree()
    ensures |Categories| == 37
    ensures forall i :: 0 <= i < |Categories| ==> ListItem(Categories[i])
  {
    CategoriesCommaFree0To4();
    CategoriesCommaFree4To8();
    CategoriesCommaFree8To12();
    CategoriesCommaFree12To16();
    CategoriesCommaFree16To20();
    CategoriesCommaFree20To24();
    CategoriesCommaFree24To28();
    CategoriesCommaFree28To32();
    CategoriesCommaFree32To36();
    CategoriesCommaFree36To37();
  }

  /** Some categories contain `&`, the separator of a query string. */
  lemma CategoryWithAmpersand()
    ensures Categories[3] == "Food & Cooking" && Categories[3][5] == '&'
  {
  }
}
