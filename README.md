# PPE compliance detector: display logic

The application uploads a photo of a construction site, runs a pretrained
object detector over it, and shows two things: the photo with one box and
one status text per detection, and a compliance summary with one line per
detected class. This project models the step between the detector's output
and what is shown. The detector's output is an ordered table of rows. Each
row has a class name and integer box corners.

- `Compliance.ComplianceMap` and `Compliance.Display`: the fixed table of ten
  classes and their status strings. A class missing from the table is shown
  under its own name (`compliance_map.get(label, label)`).
- `Compliance.BoxColor`: a box is red `(255, 0, 0)` when the class name
  contains `"NO-"` and green `(0, 255, 0)` otherwise. `Text.Contains` models
  Python's substring test, and its contract ties it to an independent
  definition (`Text.OccursAt`).
- `Compliance.Annotate`: the loop over the rows. It builds one annotation
  record per row, in row order: the box corners, the colour, the status text,
  and the text anchor `(x1, y1 - 10)`.
- `Compliance.Summarize`: the summary loop. For each distinct class, in order
  of first appearance (`Sequences.Unique`, which models pandas `unique()`),
  it counts the rows with that class and builds the line
  `"<status>: <count>"`. `Text.DecimalString` models how the f-string writes
  the count.

The system's design description says three things that app.py does not do.
First, it says an unmapped class is shown as "Unknown". app.py shows the
class name itself. Second, it describes compliant, violation and worker
tallies and a "primary" detection. app.py computes none of them. Third, it
says an empty detection list is reported as "no detections". app.py writes
only the summary subheader and no lines (app.py:57-60). This model follows
app.py in all three cases: for no detections, `Compliance.SummaryEmpty`
gives an empty summary and there is no separate indicator.

Files: `text.dfy` (module `Text`), `sequences.dfy` (module `Sequences`),
`compliance.dfy` (module `Compliance`, the logic of app.py).

## Model

| member | source | states |
|---|---|---|
| `Compliance.DisplayKnownLabels` | app.py:16-27 | each of the ten table classes is displayed as exactly its status string, and the table holds exactly those ten classes |
| `Compliance.DisplayUnmapped` | app.py:51 | a class not in the table is displayed as its own name; it is not dropped and causes no error |
| `Text.Contains` | app.py:49 | `part in text` is true exactly when `part` occurs at some index of `text` |
| `Compliance.BoxColor` | app.py:49 | the colour is red exactly when the name contains `"NO-"` somewhere, and green exactly when it does not |
| `Compliance.RedExactlyForMissingStatus` | app.py:16-27 | for every class in the table, the colour rule gives red exactly for the classes whose status starts with the cross mark, i.e. the three `NO-` classes |
| `Compliance.Annotate` | app.py:46-52 | one annotation per row, in row order; each has the row's corners, the colour rule's colour, the displayed status, and anchor `(xmin, ymin - 10)` |
| `Sequences.Unique` | app.py:58 | `unique()` holds exactly the elements of the column, each once, ordered by first occurrence |
| `Sequences.UniqueSnoc` | app.py:58 | a new element extends `unique()` at its end; a repeated one leaves it unchanged |
| `Sequences.FirstIndex` | app.py:58 | the position of the first occurrence: it holds the element and nothing before it does |
| `Sequences.Occurrences` | app.py:59 | `(column == label).sum()` equals the multiplicity of the label in the column |
| `Text.DecimalString` | app.py:60 | the count is written as a non-empty string of decimal digits with no leading zero, and it denotes the count |
| `Compliance.Summarize` | app.py:58-60 | the summary loop, including its inner count, builds exactly `Summary(rows)` |
| `Compliance.SummaryListsEachLabelOnce` | app.py:58 | a class appears in the summary iff it appears in the rows, at most once, and the lines follow the order of first appearance |
| `Compliance.SummaryCounts` | app.py:59-60 | each line's count is the number of rows with that class, so at least 1, and its text is the displayed status, `": "`, and the count |
| `Sequences.SumOccurrencesUnique` | app.py:58-59 | counting each distinct element once covers every position of the column |
| `Compliance.SummaryTotal` | app.py:58-59 | the summary counts add up to the number of detections |
| `Compliance.SummaryEmpty` | app.py:58-60 | the summary is empty exactly when there are no detections |
| `Compliance.SummaryLineReadBack` | app.py:60 | each line starts with its status and `": "`, and the rest of the line is digits that read back as the count |
| `Compliance.SummaryExample` | app.py:58-60 | rows Person, Hardhat, Person give the lines "👤 Worker: 2" and then "✅ Compliant: 1" |

## Left out

- Model loading through `torch.hub.load` and Streamlit's resource cache (app.py:9-13): a foreign library with network and file I/O.
- Inference and the conversion of its result to a pandas table (app.py:41-42): the detector is opaque, so its output is a given sequence of rows.
- Image upload, decoding and conversion to RGB (app.py:34-38): I/O and UI. The box colours are RGB triples, matching the RGB image they are drawn on.
- Pixel drawing by `cv2.rectangle` and `cv2.putText` (app.py:50-52), together with the line thickness 2, the font and the scale 0.6: foreign calls. The annotation record holds the box, colour, text and anchor instead. The record list stands for the drawing into `annotated_img`.
- The conversion of float box coordinates to `int` (app.py:48): floating point. Rows carry integer corners.
- Page setup, title, markdown, spinner, image display, subheader and the `st.write` output itself (app.py:30-32, 38, 40, 54, 57, 60): UI. The model produces the line text without showing it.
- The detector's confidence and class-index columns: app.py never reads them.
- The emoji in the status strings are kept as the exact code points of the source and treated as opaque text.
