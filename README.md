# SVG Embed and Crop: a verified model of the cropping core

The extension reads an SVG document and visits its `image` elements. For each image that has a
`clip-path`, it works out what fraction of the bitmap lies outside the clip rectangles and
crops that off in whole pixels. It then moves and resizes the `image` element so the kept pixels
stay where they were drawn. It can also downsample bitmaps whose resolution is too high.
Command-line flags set the output image type, JPEG quality, resolution limits and the minimum
size of embedded images.

This project models that core in Dafny and proves properties of the model. Every Java method
is modelled as written, including where it departs from its documentation or from the SVG
standard.

- `wrappers.dfy` (`Wrappers`): `Option`, and `Result` with the `:-` operator.
- `java_lang.dfy` (`JavaLang`): the exceptions the core raises, as one datatype. Also the
  library calls the core relies on, stated over `string`:
  - `String.trim`, `split`, `indexOf`, `lastIndexOf`, `substring`;
  - the decimal-literal subset of `Double.parseDouble`.
- `transforms.dfy` (`Transforms`): the point-transform engine.
  - `transformMatrix` and its translate, scale, rotate and skew wrappers.
  - One item of a `transform` list as the extension reads it.
  - `parseTransform`, as a token loop proved against a function.
  - The composition laws: a transform list is one affine map, composed in textual order.
- `transform_laws.dfy` (`TransformLaws`): what `parseTransform` does with concrete token
  shapes, such as `matrix(...)`, `translate(tx)`, `scale(s)`, `rotate(a,b)`, unknown tokens
  and blank attributes.
- `document_space.dfy` (`DocumentSpace`): `transformToDocumentSpace` in both versions:
  - one point, walked up the ancestor chain;
  - an array of points overwritten level by level, as a method over `array<Point>`.
- `dom.dfy` (`Dom`): elements as values with a name, an attribute map and children, and
  `getElementsByTagName`. Also `getClipPath`: the id in a `clip-path` value, and the search
  for the first `clipPath` with that id.
- `clip_geometry.dfy` (`ClipGeometry`): the geometry of `getCropFraction`:
  - `getRectBounds`, `rectBoundsToPointList`, `distanceFromRect`, `isPointInRect`;
  - `scaleToRectFraction`, in place on an array;
  - `getClipPoints` (the gathering loop, then the copy into a zero-filled array);
  - `getCropFraction`'s running minimum, seeded with 1.
- `crop_apply.dfy` (`CropApply`):
  - the whole-pixel crop of `putImgData` and the fractions it actually amounts to;
  - `adjustImgPlacement`, as a method of an `ImageElement` class whose attribute map it rewrites;
  - the decision part of `limitResolution`.
- `config.dfy` (`Config`): `checkImageOutputType` and `processFileSize`, with Java `long`
  saturation and wrap-around written out. Also the flag loop of `parseArgs`, as a method of
  an `EmbedAndCrop` class whose settings fields it overwrites, proved turn by turn against a
  scan function.
- `image_pipeline.dfy` (`ImagePipeline`): `processImg`, which joins the crop fractions to
  `putImgData`.

`double` is modelled as `real`. `Math.sin`, `Math.cos`, `Math.tan` and `Math.PI` are fields of
a `Trig` record passed in, so nothing is assumed about them. `String.valueOf(double)` is a
parameter `fmt: real -> string`.

### Behaviour the model exposes

- **Every rect lands at offset 0.** `getClipPoints` copies each rect's corners to offset 0 of
  a zero-filled array (`System.arraycopy(p, 0, points, 0, p.length)`). With several `rect`
  children, only the last rect's corners survive, in slots 0-3. Every other slot holds the
  origin (0, 0).
  - The model keeps this behaviour: `CopiedAtZero`, `CopyAtZero` and `GetClipPoints`.
    `ClipPointsOfRects` states it for any clip.
  - `SecondRectBringsInOrigin` shows the consequence. With two rects and an image whose
    top-left corner lies at positive coordinates, the top and left crop fractions come out
    negative, so those edges are not cropped at all.
- **Tokens of a `transform` act left to right.** `parseTransform` applies the tokens in order,
  and `rotate(a,cx,cy)` adds (cx, cy) before rotating. SVG 1.1 (section 7.6) does the reverse
  in both cases. `TranslateThenRotate` and `RotateThenTranslate` show that the order changes
  the result.
- **A single `-r` value sets the maximum equal to the target.** The documentation says the
  maximum resolution defaults to 4/3 of the target. The code computes `4/3 * targetRes` in
  integer division, which gives 1 times the target (`OneResolutionValue`).
- **A decimal point rejects the size.** `processFileSize` strips every non-digit from the
  value, but the `.` of "1.5MB" stays in the unit, so the unit is invalid
  (`SizeRejectsDecimalPoint`). A size past `Long.MAX_VALUE` saturates and the product then
  wraps: any such number of KB comes out as -1024 (`SaturatedKilobytesWrap`).
- **A rect needs its position.** A `rect` without `x` or `y` raises, because `new Double("")`
  fails. It does not default to 0 (`MissingPositionRaises`).

## Model

Every source cell refers to `src/main/java/edu/emory/cellbio/svg/EmbedAndCrop.java`.

| member | source | states |
|---|---|---|
| Transforms.TransformTranslate | src/main/java/edu/emory/cellbio/svg/EmbedAndCrop.java:941-944 | transformTranslate moves (x, y) to (x + tx, y + ty) |
| Transforms.TransformScale | src/main/java/edu/emory/cellbio/svg/EmbedAndCrop.java:953-956 | transformScale sends (x, y) to (sx·x, sy·y) |
| Transforms.TransformRotate | src/main/java/edu/emory/cellbio/svg/EmbedAndCrop.java:964-968 | rotation about the origin by a degrees: (x·cos − y·sin, x·sin + y·cos) of a·π/180 |
| Transforms.TransformRotateAbout | src/main/java/edu/emory/cellbio/svg/EmbedAndCrop.java:976-978 | rotate(a,cx,cy) adds (cx, cy), rotates about the origin, then subtracts (cx, cy) |
| Transforms.TransformSkewX | src/main/java/edu/emory/cellbio/svg/EmbedAndCrop.java:986-990 | skewX sends (x, y) to (x + tan(a)·y, y) |
| Transforms.TransformSkewY | src/main/java/edu/emory/cellbio/svg/EmbedAndCrop.java:998-1002 | skewY sends (x, y) to (x, tan(a)·x + y) |
| Transforms.TransformMatrix | src/main/java/edu/emory/cellbio/svg/EmbedAndCrop.java:925-932 | the origin goes to the matrix's translation (m2, m5), and a matrix with unit linear part moves every point by (m2, m5) |
| Transforms.MatrixKeepsLines | src/main/java/edu/emory/cellbio/svg/EmbedAndCrop.java:925-932 | transformMatrix keeps straight lines and their ratios: the image of the point a fraction s of the way from p to q is that fraction of the way between their images |
| Transforms.TranslateRoundTrip | src/main/java/edu/emory/cellbio/svg/EmbedAndCrop.java:941-944 | translating by (tx, ty) and then by (−tx, −ty) gives the point back |
| Transforms.ThenApplies | src/main/java/edu/emory/cellbio/svg/EmbedAndCrop.java:925-932 | applying matrix a and then matrix b is applying their composition |
| Transforms.ThenIdentity | src/main/java/edu/emory/cellbio/svg/EmbedAndCrop.java:925-932 | the identity matrix is a unit of composition on both sides |
| Transforms.MatrixByAction | src/main/java/edu/emory/cellbio/svg/EmbedAndCrop.java:925-932 | two matrices that agree on (0,0), (1,0) and (0,1) are equal |
| Transforms.ThenAssociative | src/main/java/edu/emory/cellbio/svg/EmbedAndCrop.java:925-932 | composition of matrices is associative |
| Transforms.ApplyOpIsAffine | src/main/java/edu/emory/cellbio/svg/EmbedAndCrop.java:852-910 | every transform-list item, rotate about a centre included, acts as one affine matrix |
| Transforms.ParseTransform | src/main/java/edu/emory/cellbio/svg/EmbedAndCrop.java:842-915 | the token loop returns the point moved by each token in turn, or the first token's exception; "" returns the point |
| Transforms.ApplyTokensIsCompose | src/main/java/edu/emory/cellbio/svg/EmbedAndCrop.java:848-911 | a token list fails with the first unreadable token's error whatever the point; otherwise it moves the point by the composition of its items in textual order |
| Transforms.FailureIndependentOfPoint | src/main/java/edu/emory/cellbio/svg/EmbedAndCrop.java:842-915 | whether parseTransform raises does not depend on the point |
| Transforms.ApplyTokensAppend | src/main/java/edu/emory/cellbio/svg/EmbedAndCrop.java:849-911 | running two token lists one after the other is running the joined list |
| TransformLaws.ArgumentListOfCall | src/main/java/edu/emory/cellbio/svg/EmbedAndCrop.java:853-854 | the text between the first `(` and the last `)` of name(args), split at commas, is args again |
| TransformLaws.DispatchMatrix | src/main/java/edu/emory/cellbio/svg/EmbedAndCrop.java:852-853 | a trimmed token starting `matrix(` is read as a matrix |
| TransformLaws.DispatchTranslate | src/main/java/edu/emory/cellbio/svg/EmbedAndCrop.java:865-866 | a trimmed token starting `translate(` is read as a translation |
| TransformLaws.DispatchScale | src/main/java/edu/emory/cellbio/svg/EmbedAndCrop.java:877-878 | a trimmed token starting `scale(` is read as a scaling |
| TransformLaws.DispatchRotate | src/main/java/edu/emory/cellbio/svg/EmbedAndCrop.java:889-890 | a trimmed token starting `rotate(` is read as a rotation |
| TransformLaws.MatrixTokenRemap | src/main/java/edu/emory/cellbio/svg/EmbedAndCrop.java:852-862 | matrix(a,b,c,d,e,f) is stored as {a, c, e, b, d, f} |
| TransformLaws.TranslateOneArgument | src/main/java/edu/emory/cellbio/svg/EmbedAndCrop.java:865-874 | translate(tx) moves by (tx, 0) |
| TransformLaws.TranslateTwoArguments | src/main/java/edu/emory/cellbio/svg/EmbedAndCrop.java:865-874 | translate(tx,ty) moves by (tx, ty) |
| TransformLaws.ScaleOneArgument | src/main/java/edu/emory/cellbio/svg/EmbedAndCrop.java:877-886 | scale(s) uses sy = sx |
| TransformLaws.RotateTwoArgumentsIgnored | src/main/java/edu/emory/cellbio/svg/EmbedAndCrop.java:889-900 | rotate(a,b): the angle must parse, then the token leaves the point alone |
| TransformLaws.UnknownTokenIgnored | src/main/java/edu/emory/cellbio/svg/EmbedAndCrop.java:849-911 | a token with none of the six prefixes is skipped |
| TransformLaws.BlankTransformIsIdentity | src/main/java/edu/emory/cellbio/svg/EmbedAndCrop.java:845-848 | the empty attribute, or one of blanks only, returns the point unchanged |
| TransformLaws.TransformSequence | src/main/java/edu/emory/cellbio/svg/EmbedAndCrop.java:847-911 | "A B" applies A to the point, then B to A's result |
| TransformLaws.TransformOfCall | src/main/java/edu/emory/cellbio/svg/EmbedAndCrop.java:842-915 | an attribute holding the single token name(args) applies that token's item |
| TransformLaws.MatrixMatchesTranslate | src/main/java/edu/emory/cellbio/svg/EmbedAndCrop.java:852-874 | matrix(1,0,0,1,tx,ty) moves every point exactly as translate(tx,ty) does, to (x + tx, y + ty) |
| TransformLaws.RotateQuarter | src/main/java/edu/emory/cellbio/svg/EmbedAndCrop.java:964-968 | a rotation with cosine 0 and sine 1 sends (x, y) to (−y, x) |
| TransformLaws.TranslateThenRotate | src/main/java/edu/emory/cellbio/svg/EmbedAndCrop.java:849-911 | translate(10,0) then a quarter-turn rotate sends (1,0) to (0,11) |
| TransformLaws.RotateThenTranslate | src/main/java/edu/emory/cellbio/svg/EmbedAndCrop.java:849-911 | a quarter-turn rotate then translate(10,0) sends (1,0) to (10,1): token order matters |
| DocumentSpace.PointsToDocumentSpace | src/main/java/edu/emory/cellbio/svg/EmbedAndCrop.java:817-834 | the array ends as the level-by-level walk up the ancestor chain leaves it, with the exception that stopped it |
| DocumentSpace.DocSpacePoint | src/main/java/edu/emory/cellbio/svg/EmbedAndCrop.java:798-809 | the one-point walk raises exactly when some level of the ancestor chain has a non-empty transform that parseTransform cannot read |
| DocumentSpace.MoveLevel | src/main/java/edu/emory/cellbio/svg/EmbedAndCrop.java:821-826 | one level's loop overwrites points[i] with its transformed value, stopping at the first failure |
| DocumentSpace.MoveAllAllOrNothing | src/main/java/edu/emory/cellbio/svg/EmbedAndCrop.java:821-826 | a level either moves every point or fails on the first one and moves none |
| DocumentSpace.ArrayMatchesPointwise | src/main/java/edu/emory/cellbio/svg/EmbedAndCrop.java:798-834 | the array version fails exactly when the one-point version does, and otherwise slot i holds the image of point i |
| DocumentSpace.NoTransformIsIdentity | src/main/java/edu/emory/cellbio/svg/EmbedAndCrop.java:798-809 | with no transform on the element or any ancestor the point is unchanged |
| DocumentSpace.ChainAppend | src/main/java/edu/emory/cellbio/svg/EmbedAndCrop.java:798-809 | the walk over inner + outer is the inner walk followed by the outer walk |
| DocumentSpace.ElementThenParent | src/main/java/edu/emory/cellbio/svg/EmbedAndCrop.java:798-809 | the element's own transform acts before its parent's |
| Dom.ElementsNamed | src/main/java/edu/emory/cellbio/svg/EmbedAndCrop.java:1017 | getElementsByTagName returns only elements of that name |
| Dom.ClipId | src/main/java/edu/emory/cellbio/svg/EmbedAndCrop.java:1009-1012 | the id is the text between the first `#` and the first `)`, which holds no `)`; a value without `#` or without `)` is taken whole; substring raises exactly when that `)` comes before the `#` |
| Dom.FindClip | src/main/java/edu/emory/cellbio/svg/EmbedAndCrop.java:1018-1021 | the search loop returns the first clip element with the id, or null |
| Dom.GetClipPath | src/main/java/edu/emory/cellbio/svg/EmbedAndCrop.java:1005-1022 | null for an empty clip-path; otherwise the substring error, or the first clipPath of the document whose id is the extracted one |
| Dom.FirstWithIdFound | src/main/java/edu/emory/cellbio/svg/EmbedAndCrop.java:1019-1021 | the element found carries the id, comes from the list, and no earlier element carries it |
| Dom.FirstWithIdNone | src/main/java/edu/emory/cellbio/svg/EmbedAndCrop.java:1018-1022 | null exactly when no element of the list carries the id |
| Dom.ClipIdOfUrl | src/main/java/edu/emory/cellbio/svg/EmbedAndCrop.java:1009-1012 | url(#name) names `name` |
| Dom.ClipIdWhole | src/main/java/edu/emory/cellbio/svg/EmbedAndCrop.java:1009-1012 | a value without `#` or without `)` is taken whole as the id |
| Dom.ClipIdMisordered | src/main/java/edu/emory/cellbio/svg/EmbedAndCrop.java:1009-1012 | a `)` before the first `#` makes substring raise |
| ClipGeometry.DistanceFromRect | src/main/java/edu/emory/cellbio/svg/EmbedAndCrop.java:656-665 | each distance is negative exactly when the point lies beyond that edge; top + bottom and left + right are the rectangle's height and width |
| ClipGeometry.IsPointInRect | src/main/java/edu/emory/cellbio/svg/EmbedAndCrop.java:643-646 | isPointInRect holds exactly when the point lies strictly between the two x bounds and strictly between the two y bounds, whichever way round they are |
| ClipGeometry.RectBoundsRead | src/main/java/edu/emory/cellbio/svg/EmbedAndCrop.java:768-774 | getRectBounds succeeds exactly when x, y, width and height all parse, raises only NumberFormatException, and gives x0 = x, y0 = y, x1 − x0 = width, y1 − y0 = height |
| ClipGeometry.RectCorners | src/main/java/edu/emory/cellbio/svg/EmbedAndCrop.java:781-788 | rectBoundsToPointList returns 4 points, each a combination of x0 or x1 with y0 or y1, and every such combination is among them |
| ClipGeometry.ScaleToRectFraction | src/main/java/edu/emory/cellbio/svg/EmbedAndCrop.java:674-680 | the array is overwritten with the distances divided by height (top, bottom) and width (left, right) |
| ClipGeometry.ClipShapes | src/main/java/edu/emory/cellbio/svg/EmbedAndCrop.java:710-728 | every gathered corner list has 4 points |
| ClipGeometry.Zeros | src/main/java/edu/emory/cellbio/svg/EmbedAndCrop.java:733 | a new double[n][2] holds n origins |
| ClipGeometry.CopiedAtZero | src/main/java/edu/emory/cellbio/svg/EmbedAndCrop.java:730-740 | the returned array holds 4 points per rect child; slots 0-3 hold the last rect's corners, because every copy goes to offset 0, and every later slot is the origin |
| ClipGeometry.ArrayCopy | src/main/java/edu/emory/cellbio/svg/EmbedAndCrop.java:737 | System.arraycopy replaces dest[destPos..destPos+len] by src and keeps the rest |
| ClipGeometry.ReadRect | src/main/java/edu/emory/cellbio/svg/EmbedAndCrop.java:713-723 | the corners of a rect child, each moved by the child's own transform |
| ClipGeometry.GatherShapes | src/main/java/edu/emory/cellbio/svg/EmbedAndCrop.java:708-728 | the first loop gathers the corner lists of the children in order, skipping text and raising on a non-rect |
| ClipGeometry.ShapesOfRects | src/main/java/edu/emory/cellbio/svg/EmbedAndCrop.java:708-728 | the first loop succeeds exactly when every element child is a rect whose corners can be read, and then gathers one corner list per rect child, in order |
| ClipGeometry.NonRectRaises | src/main/java/edu/emory/cellbio/svg/EmbedAndCrop.java:715-719 | an element child that is not a rect makes getClipPoints raise |
| ClipGeometry.CopyAtZero | src/main/java/edu/emory/cellbio/svg/EmbedAndCrop.java:730-740 | the second loop copies every list to offset 0 of a zero-filled array |
| ClipGeometry.GetClipPoints | src/main/java/edu/emory/cellbio/svg/EmbedAndCrop.java:707-741 | getClipPoints returns the gathered lists copied as the two loops do, or their exception (ClipPointsOfRects states what that value is) |
| ClipGeometry.MinFractionIsMinimum | src/main/java/edu/emory/cellbio/svg/EmbedAndCrop.java:622-631 | each crop fraction is at most 1, at most every clip point's fraction, and equal to 1 or to one of them |
| ClipGeometry.TakeMinima | src/main/java/edu/emory/cellbio/svg/EmbedAndCrop.java:629-630 | cf[j] becomes min(cf[j], pf[j]) for every edge |
| ClipGeometry.LowerToFractions | src/main/java/edu/emory/cellbio/svg/EmbedAndCrop.java:627-631 | after the loop over the clip points each cf[j] is the running minimum seeded with 1 |
| ClipGeometry.CropFractionOver | src/main/java/edu/emory/cellbio/svg/EmbedAndCrop.java:622-631 | cf is (0,0,0,0) without clip points, else the four running minima |
| ClipGeometry.GetCropFraction | src/main/java/edu/emory/cellbio/svg/EmbedAndCrop.java:617-635 | getCropFraction is the image bounds, then the clip points, then their fractions, or the first exception |
| ClipGeometry.RectBoundsOfWholeNumbers | src/main/java/edu/emory/cellbio/svg/EmbedAndCrop.java:768-774 | x, y, width, height written as whole numbers give the bounds (x, x + w, y, y + h) |
| ClipGeometry.MissingPositionRaises | src/main/java/edu/emory/cellbio/svg/EmbedAndCrop.java:768-774 | a missing x, or a missing y after a valid x, raises NumberFormatException |
| ClipGeometry.DistanceSwapInvariant | src/main/java/edu/emory/cellbio/svg/EmbedAndCrop.java:656-665 | swapping x0 with x1, or y0 with y1, leaves the distances unchanged |
| ClipGeometry.InRectIffAllDistancesPositive | src/main/java/edu/emory/cellbio/svg/EmbedAndCrop.java:643-665 | isPointInRect holds exactly when all four distances are positive |
| ClipGeometry.FractionPairsSumToOne | src/main/java/edu/emory/cellbio/svg/EmbedAndCrop.java:656-680 | after scaling, top + bottom = 1 and left + right = 1 |
| ClipGeometry.FractionSign | src/main/java/edu/emory/cellbio/svg/EmbedAndCrop.java:656-680 | a fraction is negative exactly when its distance is |
| ClipGeometry.ShapeFails | src/main/java/edu/emory/cellbio/svg/EmbedAndCrop.java:715-723 | a first child that is a rect whose corners cannot be read makes the first loop of getClipPoints raise that rect's exception |
| ClipGeometry.FirstBadChildDecides | src/main/java/edu/emory/cellbio/svg/EmbedAndCrop.java:708-728 | the first element child that is not a readable rect decides the exception of the first loop, when every earlier element child is a readable rect: UnsupportedClipShape for a non-rect, the rect's own exception for an unreadable rect |
| ClipGeometry.ClipShapesOfText | src/main/java/edu/emory/cellbio/svg/EmbedAndCrop.java:710-711 | a clip with only non-element children gathers nothing |
| ClipGeometry.CropOfEmptyClip | src/main/java/edu/emory/cellbio/svg/EmbedAndCrop.java:617-635 | a clip without element children gives (0, 0, 0, 0) |
| ClipGeometry.ClipPointsOfOneRect | src/main/java/edu/emory/cellbio/svg/EmbedAndCrop.java:707-741 | a clip with one rect child yields that rect's moved corners |
| ClipGeometry.ClipPointsOfRects | src/main/java/edu/emory/cellbio/svg/EmbedAndCrop.java:707-741 | getClipPoints succeeds exactly when every element child is a readable rect; it then returns 4·(number of rects) points: the last rect's corners in slots 0-3, the origin in every later slot |
| ClipGeometry.InnerPointFractions | src/main/java/edu/emory/cellbio/svg/EmbedAndCrop.java:643-680 | a point strictly inside the rectangle has every fraction strictly between 0 and 1 |
| ClipGeometry.MinOfInnerPoints | src/main/java/edu/emory/cellbio/svg/EmbedAndCrop.java:622-631 | the crop fraction over points that all lie strictly inside the image is strictly between 0 and 1 |
| ClipGeometry.CropOfOneRect | src/main/java/edu/emory/cellbio/svg/EmbedAndCrop.java:617-635 | a clip with one untransformed rect crops from each edge min(1, the least fraction of that rect's four corners), the running minimum seeded with 1 |
| ClipGeometry.CropOfInnerRect | src/main/java/edu/emory/cellbio/svg/EmbedAndCrop.java:617-635 | a single untransformed rect strictly inside the image crops a fraction strictly between 0 and 1 from every edge |
| ClipGeometry.MinIsLeast | src/main/java/edu/emory/cellbio/svg/EmbedAndCrop.java:622-631 | a crop fraction equals the least fraction of the clip points whenever that least fraction is at most 1 |
| ClipGeometry.CornerFractions | src/main/java/edu/emory/cellbio/svg/EmbedAndCrop.java:781-788 | every corner of a rectangle is on or inside each edge, and some corner lies on it |
| ClipGeometry.CropOfImageRect | src/main/java/edu/emory/cellbio/svg/EmbedAndCrop.java:617-635 | a single untransformed rect equal to the image bounds crops nothing |
| ClipGeometry.SecondRectBringsInOrigin | src/main/java/edu/emory/cellbio/svg/EmbedAndCrop.java:733-737 | with two rects the origin becomes a clip point, so an image at positive coordinates gets negative top and left fractions |
| CropApply.CropImage | src/main/java/edu/emory/cellbio/svg/EmbedAndCrop.java:414-423 | the whole pixels floor(fraction · dimension) clamped at 0, the sub-image they leave (or the exception when none is left), and pixels / dimension as the actual fractions |
| CropApply.EdgeFractionWithin | src/main/java/edu/emory/cellbio/svg/EmbedAndCrop.java:414-423 | the fraction actually cropped lies between 0 and what was asked, short by less than 1 / dimension |
| CropApply.EdgeWithinAsked | src/main/java/edu/emory/cellbio/svg/EmbedAndCrop.java:414-423 | the same, for a fraction c of a dimension d |
| CropApply.ActualWithinRequested | src/main/java/edu/emory/cellbio/svg/EmbedAndCrop.java:414-423 | each of the four actual fractions is within one pixel below the requested one, and never negative |
| CropApply.CropFailsIffNothingRemains | src/main/java/edu/emory/cellbio/svg/EmbedAndCrop.java:418-420 | getSubimage raises exactly when the actual top + bottom or left + right fractions reach 1 |
| CropApply.NonPositiveCropIsWhole | src/main/java/edu/emory/cellbio/svg/EmbedAndCrop.java:414-423 | fractions of zero or less cut nothing: the whole bitmap, with actual fractions 0 |
| CropApply.ImageElement.AdjustImgPlacement | src/main/java/edu/emory/cellbio/svg/EmbedAndCrop.java:531-556 | width and height must parse (else the exception, attributes untouched), x and y default to 0, and the four new values are written |
| CropApply.ImageElement.PutImgData | src/main/java/edu/emory/cellbio/svg/EmbedAndCrop.java:412-425 | the pixel crop, then adjustImgPlacement with the actual fractions; an empty sub-image raises before anything is written |
| CropApply.PlacementMovesEdges | src/main/java/edu/emory/cellbio/svg/EmbedAndCrop.java:531-556 | each edge of the image moves inwards by its fraction of the image's size |
| CropApply.ZeroCropKeepsPlacement | src/main/java/edu/emory/cellbio/svg/EmbedAndCrop.java:531-556 | an all-zero crop keeps the placement as read |
| CropApply.PlacementWithinFrame | src/main/java/edu/emory/cellbio/svg/EmbedAndCrop.java:531-556 | for fractions that are non-negative and sum to at most 1 per axis, the new placement lies inside the old one, with non-negative size |
| CropApply.CroppedPlacementWithin | src/main/java/edu/emory/cellbio/svg/EmbedAndCrop.java:412-425 | after a crop that succeeds, the placement written from the actual fractions lies inside the image's old placement |
| CropApply.PlacedReadsBack | src/main/java/edu/emory/cellbio/svg/EmbedAndCrop.java:548-555 | reading back the written attributes gives the computed placement when formatting and parsing agree |
| CropApply.DownsampleReachesTarget | src/main/java/edu/emory/cellbio/svg/EmbedAndCrop.java:594-599 | downsampling happens exactly when either resolution exceeds the maximum, and then scales each resolution to min(target, resolution) |
| CropApply.LimitResolution | src/main/java/edu/emory/cellbio/svg/EmbedAndCrop.java:594-599 | a downsample never enlarges: both scale factors are at most 1, and positive for a positive target resolution |
| Config.CheckImageOutputType | src/main/java/edu/emory/cellbio/svg/EmbedAndCrop.java:286-294 | passes exactly png, jpeg and mix; anything else raises with the type |
| Config.Wrap64 | src/main/java/edu/emory/cellbio/svg/EmbedAndCrop.java:1074 | a long product lies in the long range, is congruent to the true product modulo 2^64, and equals it when it fits |
| Config.LongValue | src/main/java/edu/emory/cellbio/svg/EmbedAndCrop.java:1074 | longValue is in the long range and is the floor of a non-negative value below Long.MAX_VALUE |
| Config.Digits | src/main/java/edu/emory/cellbio/svg/EmbedAndCrop.java:1054 | replaceAll("\\D", "") leaves only digits |
| Config.NonDigits | src/main/java/edu/emory/cellbio/svg/EmbedAndCrop.java:1055 | replaceAll("\\d", "") leaves no digit |
| Config.ProcessFileSize | src/main/java/edu/emory/cellbio/svg/EmbedAndCrop.java:1053-1075 | the size returned is a long |
| Config.ValueOfDigits | src/main/java/edu/emory/cellbio/svg/EmbedAndCrop.java:1054 | the digits of a size, once there are any, parse to the number they spell |
| Config.SizeNeedsDigits | src/main/java/edu/emory/cellbio/svg/EmbedAndCrop.java:1054 | a size without digits raises NumberFormatException |
| Config.SizeRejectsDecimalPoint | src/main/java/edu/emory/cellbio/svg/EmbedAndCrop.java:1053-1075 | a size with digits and a `.` raises for an invalid unit |
| Config.SizeRejectsOtherUnit | src/main/java/edu/emory/cellbio/svg/EmbedAndCrop.java:1053-1075 | a size with digits whose unit, trimmed and upper-cased, is not B, KB, MB or GB raises IllegalArgumentException naming that unit |
| Config.SizeOfNumberAndUnit | src/main/java/edu/emory/cellbio/svg/EmbedAndCrop.java:1053-1075 | a number followed by unit text gives the number's longValue times the unit's multiplier, wrapped to a long |
| Config.SizeInBytes | src/main/java/edu/emory/cellbio/svg/EmbedAndCrop.java:1053-1075 | when it fits in a long, the size is n times 1, 1024, 1024² or 1024³, the unit trimmed and in any case |
| Config.KilobytesExample | src/main/java/edu/emory/cellbio/svg/EmbedAndCrop.java:1053-1075 | "20KB" is 20480 bytes |
| Config.MegabytesExample | src/main/java/edu/emory/cellbio/svg/EmbedAndCrop.java:1053-1075 | "1 mb" is 1048576 bytes |
| Config.SaturatedKilobytesWrap | src/main/java/edu/emory/cellbio/svg/EmbedAndCrop.java:1074 | any number of KB above Long.MAX_VALUE comes out as −1024 |
| Config.TrimKeeps | src/main/java/edu/emory/cellbio/svg/EmbedAndCrop.java:1055 | trim removes only characters at or below U+0020 |
| Config.Step | src/main/java/edu/emory/cellbio/svg/EmbedAndCrop.java:178-221 | every turn of the flag loop moves past the token and stays within the arguments |
| Config.EmbedAndCrop.constructor | src/main/java/edu/emory/cellbio/svg/EmbedAndCrop.java:67-72 | the settings start as png, 0.8, no resampling, 11.811, 15.748, −1 |
| Config.EmbedAndCrop.SetImageType | src/main/java/edu/emory/cellbio/svg/EmbedAndCrop.java:190-194 | -t stores the type and then checks it |
| Config.EmbedAndCrop.SetQuality | src/main/java/edu/emory/cellbio/svg/EmbedAndCrop.java:196-201 | -q raises without an earlier -t, else stores the parsed quality |
| Config.EmbedAndCrop.SetResolution | src/main/java/edu/emory/cellbio/svg/EmbedAndCrop.java:203-214 | -r reads the next argument as the target, the one after as the maximum unless it starts with '-', else (4/3)·target in integer division |
| Config.EmbedAndCrop.SetSizeMin | src/main/java/edu/emory/cellbio/svg/EmbedAndCrop.java:216-218 | -e stores processFileSize of the next argument |
| Config.EmbedAndCrop.Turn | src/main/java/edu/emory/cellbio/svg/EmbedAndCrop.java:179-221 | one turn of the flag loop updates the fields and locals as the scan function's step does |
| Config.EmbedAndCrop.ParseArgs | src/main/java/edu/emory/cellbio/svg/EmbedAndCrop.java:171-222 | the fields and the locals input, output, saveAs and typeLoaded end as the scan over all arguments leaves them, with its exception |
| Config.QualityNeedsType | src/main/java/edu/emory/cellbio/svg/EmbedAndCrop.java:196-199 | -q before -t raises and changes nothing |
| Config.TypeThenQuality | src/main/java/edu/emory/cellbio/svg/EmbedAndCrop.java:190-201 | -t with a known type and then -q store both |
| Config.UnknownTypeIsStored | src/main/java/edu/emory/cellbio/svg/EmbedAndCrop.java:190-192 | an unknown type raises after it has been stored |
| Config.OneResolutionValue | src/main/java/edu/emory/cellbio/svg/EmbedAndCrop.java:203-214 | -r with one value sets target and maximum both to it |
| Config.ResolutionTakesDashedValue | src/main/java/edu/emory/cellbio/svg/EmbedAndCrop.java:204-206 | the value after -r is taken even when it starts with '-' |
| Config.TwoResolutionValues | src/main/java/edu/emory/cellbio/svg/EmbedAndCrop.java:203-214 | -r t m with m not starting with '-' sets target t and maximum m |
| Config.ResolutionThenFlag | src/main/java/edu/emory/cellbio/svg/EmbedAndCrop.java:203-214 | a flag after one -r value is read as a flag, and the maximum equals the target |
| Config.LoneFlagIsInput | src/main/java/edu/emory/cellbio/svg/EmbedAndCrop.java:184-221 | a lone -o has no value and is taken as the input file |
| Config.LaterTurnsKeepInput | src/main/java/edu/emory/cellbio/svg/EmbedAndCrop.java:220-221 | no turn after the first sets the input |
| Config.InputIsFirstArgument | src/main/java/edu/emory/cellbio/svg/EmbedAndCrop.java:220-221 | the input file, if any, is the first argument trimmed |
| Config.SettingsNeedTheirFlags | src/main/java/edu/emory/cellbio/svg/EmbedAndCrop.java:178-222 | without -t, -q, -r or -e the scan raises nothing and changes no setting |
| ImagePipeline.Fractions | src/main/java/edu/emory/cellbio/svg/EmbedAndCrop.java:322-324 | the fractions handed on are four: (0,0,0,0) without a clip, else getCropFraction's |
| ImagePipeline.ProcessImg | src/main/java/edu/emory/cellbio/svg/EmbedAndCrop.java:321-329 | the crop fractions, then putImgData when a bitmap was loaded; an exception from the crop fractions or from getSubimage leaves the element untouched (the encoding step that follows adjustImgPlacement is not modelled) |
| ImagePipeline.UnclippedKeepsPlacement | src/main/java/edu/emory/cellbio/svg/EmbedAndCrop.java:321-329 | an image without a clip path is written back at its own placement |
| ImagePipeline.SkippedImageUntouched | src/main/java/edu/emory/cellbio/svg/EmbedAndCrop.java:325-327 | a skipped bitmap leaves the element unchanged, raising only when the crop fractions do |
| ImagePipeline.InnerRectFractions | src/main/java/edu/emory/cellbio/svg/EmbedAndCrop.java:617-635 | an image at (0, 0) of size 100 × 50 clipped by one rect at (10, 5) of size 80 × 40 has crop fractions (0.1, 0.1, 0.1, 0.1), however those numbers are spelled |
| ImagePipeline.TenthCropPlan | src/main/java/edu/emory/cellbio/svg/EmbedAndCrop.java:412-423 | a crop of 0.1 from every edge of a 100 × 50 bitmap cuts 5 rows and 10 columns, exactly 0.1 of each |
| ImagePipeline.InnerRectPlacement | src/main/java/edu/emory/cellbio/svg/EmbedAndCrop.java:321-329 | processImg on that image with a 100 × 50 bitmap places the cropped image at (10, 5) with size 80 × 40, exactly where the clip rect lies |
| JavaLang.ParseDouble | src/main/java/edu/emory/cellbio/svg/EmbedAndCrop.java:769-771 | new Double of a blank string raises NumberFormatException with that string |
| JavaLang.ParseDoubleOfNat | src/main/java/edu/emory/cellbio/svg/EmbedAndCrop.java:769-771 | a whole number written in decimal parses back to itself |
| JavaLang.ParseDoubleOfNegatedDigits | src/main/java/edu/emory/cellbio/svg/EmbedAndCrop.java:205 | a minus sign followed by digits parses to the negated number |

## Left out

- Reading and writing files, streams and the XML parser (`readSVG`, `save`, `saveAs`,
  `SVGToStream`), the Swing dialogs (`openDialog`, `getOutputParams`) and `System.exit`: I/O and
  user interface. The part of `parseArgs` after the flag loop only calls these.
- Loading and encoding bitmaps: `loadImageData`, `readEmbeddedImageData`, `convertToRGB`, the
  PNG/JPEG encoding and `data:` URI in `putImgData`, and the bicubic filter of
  `limitResolution`. These are codec calls. The bitmap enters the model only through its width
  and height, or through None when it is skipped.
- `getElementDims` and `distanceFromLine` (square roots and powers of floating point;
  `distanceFromLine` is unused). `getPathPointList` is a stub that never reads the path.
- ImagePipeline.ProcessImg: two steps of `putImgData` that run after `adjustImgPlacement`
  (src/main/java/edu/emory/cellbio/svg/EmbedAndCrop.java:425) has rewritten x, y, width and
  height are not modelled:
  - the `doResampling` branch (lines 426-429). `getElementDims` calls
    `transformToDocumentSpace`, which can raise on an unreadable `transform` of the image or an
    ancestor;
  - the encoding block (lines 432-472).
  An exception from either leaves the element moved and resized in Java, with its old bitmap.
  `Processed` returns no exception for these steps. `LimitResolution` is modelled on its own and
  is not called from `PutImgData`.
- `process`, the loop over all `image` elements: each turn is `getClipPath` and then
  `processImg`, both of which are modelled.
- IEEE-754 rounding, NaN, infinities, and division by zero. `Double.parseDouble` is modelled
  for decimal literals with an optional sign, exponent and type suffix. NaN, Infinity and hex
  literals are rejected, and `Float.parseFloat` for `-q` is read the same way without rounding
  to float.
- The `(int)` casts of `Math.floor` in `putImgData`: they saturate at the int range, which the
  model does not bound.
- `String.toUpperCase` is modelled on ASCII letters only. No other character upper-cases to
  B, K, M or G, so the set of accepted units is the same.
- The arrays of `getClipPoints` hold references to the corner arrays of `pA`. The model copies
  values, so it does not capture that aliasing. Nothing in the core writes to them afterwards.
- `RuntimeException` wrapping of the exception that ends `parseArgs`, and the messages of all
  exceptions. A null `args` array is not modelled, since the command line never passes one.
- ClipGeometry.GetCropFraction: requires the image to have a non-zero width and height whenever
  the clip yields a point, since the fractions divide by them; Java would produce infinities or NaN instead.
- ClipGeometry.ClipShapes: its own contract states only that each gathered list has 4 points.
  ShapesOfRects states which clips succeed and what is gathered for each rect child, and
  NonRectRaises covers a non-rect element child anywhere in the clip.
- ClipGeometry.GetClipPoints: its contract ties the method to ClipPoints; ClipPointsOfRects
  states the rejection of non-rect children, the 4·(number of rects) length and the slot contents.
- Config.ProcessFileSize: its own contract only bounds the result; what it computes is stated
  by SizeInBytes, SizeRejectsDecimalPoint, SizeRejectsOtherUnit, SizeNeedsDigits and
  SaturatedKilobytesWrap. It reads
  the digits exactly, where Java's double loses precision beyond 2^53.
- Config.Step: its own contract bounds the next index only; ParseArgs is proved equal to the
  scan built from it, and the per-flag behaviour is stated by the lemmas listed above.
- Transforms.ParseTransform: the `transform == null` check is left out, since getAttribute
  never returns null.
