/** How `load_tab_mappings` reads one line of `mappings.txt`. */
module Mappings {
  import opened Text

  /** A comment or blank line; a line without exactly one `:` (logged as
      "Invalid mapping entry" and skipped); or a rule `<query>:<pattern>`. */
  datatype MappingLine = Ignored | Malformed | Rule(query: string, pattern: string)

  predicate IsCommentOrBlank(x: string) {
    x == [] || "#" <= x || "//" <= x
  }

  /** The line is stripped; comments and blanks are ignored; what is left must split
      on `:` into exactly two parts, which are the query and the new pattern. */
  function ParseMappingLine(line: string): (m: MappingLine)
    ensures m.Ignored? <==> IsCommentOrBlank(Strip(line))
    ensures m.Malformed? <==> !IsCommentOrBlank(Strip(line)) && Count(Strip(line), ':') != 1
    ensures m.Rule? ==> m.query + [':'] + m.pattern == Strip(line)
                        && ':' !in m.query && ':' !in m.pattern
  {
    var x := Strip(line);
    if IsCommentOrBlank(x) then Ignored
    else
      var split := Split(x, ':');
      SplitSpec(x, ':');
      if |split| != 2 then Malformed
      else
        assert Join(split, ':') == split[0] + [':'] + split[1];
        Rule(split[0], split[1])
  }

  /** A line with no `:` at all is skipped and creates nothing. */
  lemma NoColonIsMalformed(line: string)
    requires !IsCommentOrBlank(Strip(line)) && ':' !in Strip(line)
    ensures ParseMappingLine(line) == Malformed
  {
    CountZero(Strip(line), ':');
  }

  lemma {:induction false} CountZero(s: string, c: char)
    requires c !in s
    ensures Count(s, c) == 0
  {
    if s != [] {
      CountZero(s[1..], c);
    }
  }
}
