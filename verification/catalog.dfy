/** The fixed product list of the selector and the names its contact message
    carries. */
module Catalog {
  import opened ProductName

  datatype Product = Product(name: string, price: string, image: string)

  /** Markup between the two halves of every product name. */
  const Break: string := "<br>"
  const OpenHighlight: string := "<span class=\"highlight\">"
  const CloseSpan: string := "</span>"

  /** A name as the catalog writes it: a plain first half, a line break and a
      highlighted second half. */
  function Styled(first: string, second: string): string {
    first + Break + OpenHighlight + second + CloseSpan
  }

  const Mesh: Product := Product(Styled("Alza ", "con Malla"), "L.300", "/images/gallery/4.png")
  const Filter: Product := Product(Styled("Alza Recto", "con Filtro"), "L.500", "/images/gallery/6.png")
  const LFilter: Product := Product(Styled("Alza tipo L", "con Filtro"), "L.600", "/images/gallery/3.png")
  const Angular: Product := Product(Styled("Alza Angular", "45 Grados con Filtro"), "L.600", "/images/gallery/7.png")

  /** The catalog, keyed by product id. */
  const Products: map<string, Product> :=
    map["mesh" := Mesh, "filter" := Filter, "l-filter" := LFilter, "45-degree" := Angular]

  /** The product ids in the catalog's insertion order. */
  const ProductIds: seq<string> := ["mesh", "filter", "l-filter", "45-degree"]

  /** The id selected for position `k`: past the end of the list the lookup
      yields `undefined`, which the page turns into the text "undefined". */
  function IdAt(k: nat): (id: string)
    ensures k < |ProductIds| ==> id in Products
    ensures k >= |ProductIds| ==> id !in Products
  {
    if k < |ProductIds| then ProductIds[k] else "undefined"
  }

  /** The list of ids is exactly the catalog's key set, without repetition. */
  lemma ProductIdsAreKeys()
    ensures forall k :: 0 <= k < |ProductIds| ==> ProductIds[k] in Products
    ensures forall id :: id in Products ==> id in ProductIds
    ensures forall i, j :: 0 <= i < j < |ProductIds| ==> ProductIds[i] != ProductIds[j]
  {
  }

  /** The fixed text before and after the name and price in the message. */
  const Greeting: string := "Hola Alza Motor, estoy interesado en el producto: "
  const Closing: string := "). Me gustaría saber más."

  /** The contact message for a product, before URL encoding. */
  function Message(p: Product): string {
    Greeting + Clean(p.name) + " (" + p.price + Closing
  }

  lemma MarkupIsTags()
    ensures IsTag(Break) && IsTag(OpenHighlight) && IsTag(CloseSpan)
  {
    assert Break[..|Break| - 1] == "<br";
    assert OpenHighlight[..|OpenHighlight| - 1] == "<span class=\"highlight\"";
    assert CloseSpan[..|CloseSpan| - 1] == "</span";
  }

  /** The highlighted half and its closing tag strip to the half and a
      space. */
  lemma StripClosing(second: string, t3: string)
    requires '<' !in second && IsTag(t3)
    ensures StripTags(second + t3) == second + " "
  {
    StripTag(t3, []);
    assert t3 + [] == t3;
    StripPlain(second, t3);
  }

  /** The highlight tag, the highlighted half and the closing tag strip to a
      space, the half and a space. */
  lemma StripHighlight(t2: string, second: string, t3: string)
    requires '<' !in second && IsTag(t2) && IsTag(t3)
    ensures StripTags(t2 + (second + t3)) == " " + (second + " ")
  {
    StripClosing(second, t3);
    StripTag(t2, second + t3);
  }

  /** Everything after the first half strips to two spaces, the second half
      and a space. */
  lemma StripMarkup(t1: string, t2: string, second: string, t3: string)
    requires '<' !in second && IsTag(t1) && IsTag(t2) && IsTag(t3)
    ensures StripTags(t1 + (t2 + (second + t3))) == " " + (" " + (second + " "))
  {
    StripHighlight(t2, second, t3);
    StripTag(t1, t2 + (second + t3));
  }

  lemma StripAroundTags(first: string, t1: string, t2: string, second: string, t3: string)
    requires '<' !in first && '<' !in second && IsTag(t1) && IsTag(t2) && IsTag(t3)
    ensures StripTags(first + (t1 + (t2 + (second + t3)))) == first + (" " + (" " + (second + " ")))
  {
    StripMarkup(t1, t2, second, t3);
    StripPlain(first, t1 + (t2 + (second + t3)));
  }

  /** Stripping a styled name leaves its halves, with a space for each tag. */
  lemma StripStyled(first: string, second: string)
    requires '<' !in first && '<' !in second
    ensures StripTags(Styled(first, second)) == first + "  " + second + " "
  {
    MarkupIsTags();
    StripAroundTags(first, Break, OpenHighlight, second, CloseSpan);
    assert Styled(first, second) == first + (Break + (OpenHighlight + (second + CloseSpan)));
    assert first + (" " + (" " + (second + " "))) == first + "  " + second + " ";
  }

  /** The cleaned form of a styled name whose halves, once the tags are
      spaces, are the given words separated by white-space runs: the words
      joined by single spaces. */
  lemma CleanStyled(first: string, second: string, words: seq<string>, gaps: seq<string>, clean: string)
    requires '<' !in first && '<' !in second
    requires |words| == |gaps|
    requires forall i :: 0 <= i < |words| ==> words[i] != [] && NoSpace(words[i])
    requires forall i :: 0 <= i < |gaps| ==> gaps[i] != [] && AllSpace(gaps[i])
    requires first + "  " + second + " " == Interleave(words, gaps)
    requires SpaceAfterEach(words) == clean + " "
    requires clean != [] && !IsSpace(clean[0]) && !IsSpace(clean[|clean| - 1])
    ensures Clean(Styled(first, second)) == clean
  {
    StripStyled(first, second);
    CollapseInterleave(words, gaps);
    TrimTrailingSpace(clean);
  }

  /** The words of the "mesh" name and the white space after each. */
  lemma MeshWords()
    ensures forall i :: 0 <= i < |["Alza", "con", "Malla"]| ==> ["Alza", "con", "Malla"][i] != [] && NoSpace(["Alza", "con", "Malla"][i])
    ensures forall i :: 0 <= i < |["   ", " ", " "]| ==> ["   ", " ", " "][i] != [] && AllSpace(["   ", " ", " "][i])
  {
  }

  lemma MeshStripped()
    ensures "Alza " + "  " + "con Malla" + " " == Interleave(["Alza", "con", "Malla"], ["   ", " ", " "])
  {
  }

  lemma MeshSpaced()
    ensures SpaceAfterEach(["Alza", "con", "Malla"]) == "Alza con Malla" + " "
  {
  }

  /** The "mesh" product as named in the contact message. */
  lemma MeshName()
    ensures Clean(Mesh.name) == "Alza con Malla"
  {
    MeshWords();
    MeshStripped();
    MeshSpaced();
    CleanStyled("Alza ", "con Malla", ["Alza", "con", "Malla"], ["   ", " ", " "], "Alza con Malla");
  }

  /** The words of the "filter" name and the white space after each. */
  lemma FilterWords()
    ensures forall i :: 0 <= i < |["Alza", "Recto", "con", "Filtro"]| ==> ["Alza", "Recto", "con", "Filtro"][i] != [] && NoSpace(["Alza", "Recto", "con", "Filtro"][i])
    ensures forall i :: 0 <= i < |[" ", "  ", " ", " "]| ==> [" ", "  ", " ", " "][i] != [] && AllSpace([" ", "  ", " ", " "][i])
  {
  }

  lemma FilterStripped()
    ensures "Alza Recto" + "  " + "con Filtro" + " " == Interleave(["Alza", "Recto", "con", "Filtro"], [" ", "  ", " ", " "])
  {
  }

  lemma FilterSpaced()
    ensures SpaceAfterEach(["Alza", "Recto", "con", "Filtro"]) == "Alza Recto con Filtro" + " "
  {
  }

  /** The "filter" product as named in the contact message. */
  lemma FilterName()
    ensures Clean(Filter.name) == "Alza Recto con Filtro"
  {
    FilterWords();
    FilterStripped();
    FilterSpaced();
    CleanStyled("Alza Recto", "con Filtro", ["Alza", "Recto", "con", "Filtro"], [" ", "  ", " ", " "], "Alza Recto con Filtro");
  }

  /** The words of the "l-filter" name and the white space after each. */
  lemma LFilterWords()
    ensures forall i :: 0 <= i < |["Alza", "tipo", "L", "con", "Filtro"]| ==> ["Alza", "tipo", "L", "con", "Filtro"][i] != [] && NoSpace(["Alza", "tipo", "L", "con", "Filtro"][i])
    ensures forall i :: 0 <= i < |[" ", " ", "  ", " ", " "]| ==> [" ", " ", "  ", " ", " "][i] != [] && AllSpace([" ", " ", "  ", " ", " "][i])
  {
  }

  lemma LFilterStripped()
    ensures "Alza tipo L" + "  " + "con Filtro" + " " == Interleave(["Alza", "tipo", "L", "con", "Filtro"], [" ", " ", "  ", " ", " "])
  {
  }

  lemma LFilterSpaced()
    ensures SpaceAfterEach(["Alza", "tipo", "L", "con", "Filtro"]) == "Alza tipo L con Filtro" + " "
  {
  }

  /** The "l-filter" product as named in the contact message. */
  lemma LFilterName()
    ensures Clean(LFilter.name) == "Alza tipo L con Filtro"
  {
    LFilterWords();
    LFilterStripped();
    LFilterSpaced();
    CleanStyled("Alza tipo L", "con Filtro", ["Alza", "tipo", "L", "con", "Filtro"], [" ", " ", "  ", " ", " "], "Alza tipo L con Filtro");
  }

  /** The words of the "45-degree" name and the white space after each. */
  lemma AngularWords()
    ensures forall i :: 0 <= i < |["Alza", "Angular", "45", "Grados", "con", "Filtro"]| ==> ["Alza", "Angular", "45", "Grados", "con", "Filtro"][i] != [] && NoSpace(["Alza", "Angular", "45", "Grados", "con", "Filtro"][i])
    ensures forall i :: 0 <= i < |[" ", "  ", " ", " ", " ", " "]| ==> [" ", "  ", " ", " ", " ", " "][i] != [] && AllSpace([" ", "  ", " ", " ", " ", " "][i])
  {
  }

  /** The first half of the "45-degree" name, split into words. */
  lemma AngularFirstHalf()
    ensures Interleave(["Alza", "Angular"], [" ", "  "]) == "Alza Angular" + "  "
    ensures SpaceAfterEach(["Alza", "Angular"]) == "Alza Angular "
  {
  }

  /** The second half of the "45-degree" name, split into words. */
  lemma AngularSecondHalf()
    ensures Interleave(["45", "Grados", "con", "Filtro"], [" ", " ", " ", " "]) == "45 Grados con Filtro" + " "
  {
  }

  lemma AngularSecondSpaced()
    ensures SpaceAfterEach(["45", "Grados", "con", "Filtro"]) == "45 Grados con Filtro "
  {
  }

  lemma AngularStripped()
    ensures "Alza Angular" + "  " + "45 Grados con Filtro" + " " == Interleave(["Alza", "Angular", "45", "Grados", "con", "Filtro"], [" ", "  ", " ", " ", " ", " "])
  {
    var w1, g1 := ["Alza", "Angular"], [" ", "  "];
    var w2, g2 := ["45", "Grados", "con", "Filtro"], [" ", " ", " ", " "];
    AngularFirstHalf();
    AngularSecondHalf();
    InterleaveAppend(w1, g1, w2, g2);
    assert w1 + w2 == ["Alza", "Angular", "45", "Grados", "con", "Filtro"];
    assert g1 + g2 == [" ", "  ", " ", " ", " ", " "];
  }

  lemma AngularSpaced()
    ensures SpaceAfterEach(["Alza", "Angular", "45", "Grados", "con", "Filtro"]) == "Alza Angular 45 Grados con Filtro" + " "
  {
    var w1, w2 := ["Alza", "Angular"], ["45", "Grados", "con", "Filtro"];
    AngularFirstHalf();
    AngularSecondSpaced();
    SpaceAfterEachAppend(w1, w2);
    assert w1 + w2 == ["Alza", "Angular", "45", "Grados", "con", "Filtro"];
  }

  /** The "45-degree" product as named in the contact message. */
  lemma AngularName()
    ensures Clean(Angular.name) == "Alza Angular 45 Grados con Filtro"
  {
    AngularWords();
    AngularStripped();
    AngularSpaced();
    CleanStyled("Alza Angular", "45 Grados con Filtro", ["Alza", "Angular", "45", "Grados", "con", "Filtro"], [" ", "  ", " ", " ", " ", " "], "Alza Angular 45 Grados con Filtro");
  }

  /** Proof aid, not a property: unfolds `Message` with the cleaned name
      already known, so the per-product lemmas below need not evaluate it. */
  lemma MessageWith(p: Product, clean: string)
    requires Clean(p.name) == clean
    ensures Message(p) == Greeting + clean + " (" + p.price + Closing
  {
  }

  /** The contact message of each catalogue product: its plain name and its
      price. */
  lemma MeshMessage()
    ensures Message(Mesh) == Greeting + "Alza con Malla" + " (" + "L.300" + Closing
  {
    MeshName();
    MessageWith(Mesh, "Alza con Malla");
  }

  lemma FilterMessage()
    ensures Message(Filter) == Greeting + "Alza Recto con Filtro" + " (" + "L.500" + Closing
  {
    FilterName();
    MessageWith(Filter, "Alza Recto con Filtro");
  }

  lemma LFilterMessage()
    ensures Message(LFilter) == Greeting + "Alza tipo L con Filtro" + " (" + "L.600" + Closing
  {
    LFilterName();
    MessageWith(LFilter, "Alza tipo L con Filtro");
  }

  lemma AngularMessage()
    ensures Message(Angular) == Greeting + "Alza Angular 45 Grados con Filtro" + " (" + "L.600" + Closing
  {
    AngularName();
    MessageWith(Angular, "Alza Angular 45 Grados con Filtro");
  }
}
