/**
 * The migration engine's shared vocabulary: the process steps, the shapes of the report
 * records, the ordered class-rename table, the table of script-issue signatures, and the
 * mock report the dashboard was built against.
 */
module MigrationTypes {
  import opened Wrappers

  /** The steps of a migration run; each carries a distinct string value. */
  datatype MigrationStep =
    | Idle
    | Uploading
    | Extracting
    | Analyzing
    | Converting
    | GeneratingReport
    | Complete
    | Error

  function StepValue(step: MigrationStep): string
  {
    match step
    case Idle => "idle"
    case Uploading => "uploading"
    case Extracting => "extracting"
    case Analyzing => "analyzing"
    case Converting => "converting"
    case GeneratingReport => "generating_report"
    case Complete => "complete"
    case Error => "error"
  }

  /** The eight steps carry eight different string values. */
  lemma StepValuesDistinct(a: MigrationStep, b: MigrationStep)
    requires StepValue(a) == StepValue(b)
    ensures a == b
  {
  }

  /** Where a run stands; `progress` is a percentage. */
  datatype MigrationStatus = MigrationStatus(
    step: MigrationStep,
    progress: int,
    detail: Option<string>,
    error: Option<string>,
    currentFileName: Option<string>,
    filesProcessed: Option<int>)

  /** The status with only a step and a progress value set. */
  function StatusAt(step: MigrationStep, progress: int): MigrationStatus
  {
    MigrationStatus(step, progress, None, None, None, None)
  }

  /** A warning's category: "class", "javascript" or "structure". */
  datatype WarningType = ClassWarning | JavaScriptWarning | StructureWarning

  function WarningTypeName(t: WarningType): string
  {
    match t
    case ClassWarning => "class"
    case JavaScriptWarning => "javascript"
    case StructureWarning => "structure"
  }

  /** A warning's severity: "info", "warning" or "error". */
  datatype Severity = InfoLevel | WarningLevel | ErrorLevel

  function SeverityName(s: Severity): string
  {
    match s
    case InfoLevel => "info"
    case WarningLevel => "warning"
    case ErrorLevel => "error"
  }

  datatype MigrationWarning = MigrationWarning(
    kind: WarningType,
    severity: Severity,
    message: string,
    file: Option<string>,
    line: Option<int>,
    suggestion: Option<string>)

  datatype FileSummary = FileSummary(
    fileName: string,
    fileType: string,
    changesCount: nat,
    jsIssues: nat,
    warnings: seq<MigrationWarning>)

  datatype MigrationResults = MigrationResults(
    totalFiles: nat,
    modifiedFiles: nat,
    classesReplaced: nat,
    jsIssuesFound: nat,
    manualFixesNeeded: nat,
    warnings: seq<MigrationWarning>,
    fileSummary: seq<FileSummary>)

  /** One entry of the class-rename table: a Bootstrap 3 token and what replaces it. */
  datatype ClassMapping = ClassMapping(legacy: string, modern: string)

  /** Grid system changes. */
  const GridMappings: seq<ClassMapping> :=
    [
      ClassMapping("col-xs", "col"),
      ClassMapping("col-sm", "col-sm"),
      ClassMapping("col-md", "col-md"),
      ClassMapping("col-lg", "col-lg"),
      ClassMapping("col-xl", "col-xl"),
      ClassMapping("offset-xs", "offset"),
      ClassMapping("offset-sm", "offset-sm"),
      ClassMapping("offset-md", "offset-md"),
      ClassMapping("offset-lg", "offset-lg"),
      ClassMapping("offset-xl", "offset-xl"),
      ClassMapping("container-fluid", "container-fluid")
    ]

  /** Responsive utilities. */
  const ResponsiveMappings: seq<ClassMapping> :=
    [
      ClassMapping("hidden-xs", "d-none d-sm-block"),
      ClassMapping("hidden-sm", "d-sm-none d-md-block"),
      ClassMapping("hidden-md", "d-md-none d-lg-block"),
      ClassMapping("hidden-lg", "d-lg-none d-xl-block"),
      ClassMapping("hidden-xl", "d-xl-none"),
      ClassMapping("visible-xs", "d-block d-sm-none"),
      ClassMapping("visible-sm", "d-none d-sm-block d-md-none"),
      ClassMapping("visible-md", "d-none d-md-block d-lg-none"),
      ClassMapping("visible-lg", "d-none d-lg-block d-xl-none"),
      ClassMapping("visible-xl", "d-none d-xl-block")
    ]

  /** Panels to cards. */
  const PanelMappings: seq<ClassMapping> :=
    [
      ClassMapping("panel", "card"),
      ClassMapping("panel-heading", "card-header"),
      ClassMapping("panel-title", "card-title"),
      ClassMapping("panel-body", "card-body"),
      ClassMapping("panel-footer", "card-footer"),
      ClassMapping("panel-primary", "card bg-primary text-white"),
      ClassMapping("panel-success", "card bg-success text-white"),
      ClassMapping("panel-info", "card bg-info text-white"),
      ClassMapping("panel-warning", "card bg-warning"),
      ClassMapping("panel-danger", "card bg-danger text-white")
    ]

  /** Bootstrap 3 CDN URLs. */
  const CdnMappings: seq<ClassMapping> :=
    [
      ClassMapping("https://maxcdn.bootstrapcdn.com/bootstrap/3.3.7/css/bootstrap.min.css", "https://cdn.jsdelivr.net/npm/bootstrap@5.3.2/dist/css/bootstrap.min.css"),
      ClassMapping("https://maxcdn.bootstrapcdn.com/bootstrap/3.3.7/js/bootstrap.min.js", "https://cdn.jsdelivr.net/npm/bootstrap@5.3.2/dist/js/bootstrap.bundle.min.js"),
      ClassMapping("https://maxcdn.bootstrapcdn.com/bootstrap/3.", "https://cdn.jsdelivr.net/npm/bootstrap@5.")
    ]

  /** Wells removed. */
  const WellMappings: seq<ClassMapping> :=
    [
      ClassMapping("well", "card card-body"),
      ClassMapping("well-lg", "card card-body p-5"),
      ClassMapping("well-sm", "card card-body p-2")
    ]

  /** Image shapes. */
  const ImageMappings: seq<ClassMapping> :=
    [
      ClassMapping("img-rounded", "rounded"),
      ClassMapping("img-circle", "rounded-circle"),
      ClassMapping("img-thumbnail", "img-thumbnail")
    ]

  /** Tables. */
  const TableMappings: seq<ClassMapping> :=
    [
      ClassMapping("table-condensed", "table-sm")
    ]

  /** Forms. */
  const FormMappings: seq<ClassMapping> :=
    [
      ClassMapping("control-label", "col-form-label"),
      ClassMapping("form-group", "mb-3"),
      ClassMapping("form-control-static", "form-control-plaintext"),
      ClassMapping("help-block", "form-text"),
      ClassMapping("input-lg", "form-control-lg"),
      ClassMapping("input-sm", "form-control-sm")
    ]

  /** Buttons. */
  const ButtonMappings: seq<ClassMapping> :=
    [
      ClassMapping("btn-default", "btn-secondary"),
      ClassMapping("btn-xs", "btn-sm"),
      ClassMapping("close", "btn-close")
    ]

  /** Utilities. */
  const UtilityMappings: seq<ClassMapping> :=
    [
      ClassMapping("pull-left", "float-start"),
      ClassMapping("pull-right", "float-end"),
      ClassMapping("center-block", "mx-auto d-block"),
      ClassMapping("hidden", "d-none"),
      ClassMapping("show", "d-block"),
      ClassMapping("invisible", "invisible"),
      ClassMapping("text-left", "text-start"),
      ClassMapping("text-right", "text-end")
    ]

  /** Navs. */
  const NavMappings: seq<ClassMapping> :=
    [
      ClassMapping("nav-stacked", "flex-column")
    ]

  /** Pagination. */
  const PaginationMappings: seq<ClassMapping> :=
    [
      ClassMapping("pagination-lg", "pagination-lg"),
      ClassMapping("pagination-sm", "pagination-sm")
    ]

  /** Labels to badges. */
  const LabelMappings: seq<ClassMapping> :=
    [
      ClassMapping("label", "badge"),
      ClassMapping("label-default", "bg-secondary text-dark"),
      ClassMapping("label-primary", "bg-primary"),
      ClassMapping("label-success", "bg-success"),
      ClassMapping("label-info", "bg-info"),
      ClassMapping("label-warning", "bg-warning text-dark"),
      ClassMapping("label-danger", "bg-danger")
    ]

  /** Alerts. */
  const AlertMappings: seq<ClassMapping> :=
    [
      ClassMapping("alert-link", "alert-link")
    ]

  /** List groups. */
  const ListGroupMappings: seq<ClassMapping> :=
    [
      ClassMapping("list-group-item-heading", "list-group-item-heading"),
      ClassMapping("list-group-item-text", "list-group-item-text")
    ]

  /** Modal classes. */
  const ModalMappings: seq<ClassMapping> :=
    [
      ClassMapping("modal-title", "modal-title fs-5")
    ]

  /** Additional mappings. */
  const AdditionalMappings: seq<ClassMapping> :=
    [
      ClassMapping("navbar-inverse", "navbar-dark bg-dark"),
      ClassMapping("navbar-default", "navbar-light bg-light"),
      ClassMapping("navbar-toggle", "navbar-toggler"),
      ClassMapping("nav-justified", "nav-fill"),
      ClassMapping("dropdown-menu-right", "dropdown-menu-end"),
      ClassMapping("breadcrumb > li", "breadcrumb-item"),
      ClassMapping("carousel-control", "carousel-control-prev carousel-control-next"),
      ClassMapping("btn-group-justified", "d-flex w-100"),
      ClassMapping("img-responsive", "img-fluid"),
      ClassMapping("thumbnail", "img-thumbnail"),
      ClassMapping("caret", "dropdown-toggle-icon"),
      ClassMapping("dl-horizontal", "row"),
      ClassMapping("jumbotron", "p-5 mb-4 bg-light rounded-3")
    ]

  /** The class-rename table, in declaration order (the order the rewriters visit it in). */
  const BootstrapClassMappings: seq<ClassMapping> :=
    GridMappings + ResponsiveMappings + PanelMappings + CdnMappings
    + WellMappings + ImageMappings + TableMappings + FormMappings + ButtonMappings
    + UtilityMappings + NavMappings + PaginationMappings + LabelMappings
    + AlertMappings + ListGroupMappings + ModalMappings + AdditionalMappings

  /**
   * The table has 85 entries, `panel` is visited immediately before `panel-heading`, and
   * several legacy tokens expand into more than one modern class.
   */
  lemma ClassTableShape()
    ensures |BootstrapClassMappings| == 85
    ensures BootstrapClassMappings[21] == ClassMapping("panel", "card")
    ensures BootstrapClassMappings[22] == ClassMapping("panel-heading", "card-header")
    ensures ClassMapping("hidden-xs", "d-none d-sm-block") in BootstrapClassMappings
    ensures ClassMapping("panel-primary", "card bg-primary text-white") in BootstrapClassMappings
  {
  }

  /** The entries that map a token to itself. */
  lemma IdentityEntries()
    ensures ClassMapping("col-sm", "col-sm") in BootstrapClassMappings
    ensures ClassMapping("container-fluid", "container-fluid") in BootstrapClassMappings
    ensures ClassMapping("img-thumbnail", "img-thumbnail") in BootstrapClassMappings
    ensures ClassMapping("invisible", "invisible") in BootstrapClassMappings
    ensures ClassMapping("pagination-lg", "pagination-lg") in BootstrapClassMappings
    ensures ClassMapping("pagination-sm", "pagination-sm") in BootstrapClassMappings
    ensures ClassMapping("alert-link", "alert-link") in BootstrapClassMappings
  {
  }

  /** One script-issue signature: a regular-expression source and its diagnostic. */
  datatype JsIssue = JsIssue(pattern: string, message: string)

  /** The script-issue signatures, in the order detection visits them. */
  const BootstrapJsIssues: seq<JsIssue> :=
    [
      JsIssue("$.fn.collapse",
              "Collapse plugin usage requires updating to Bootstrap 5 syntax"),
      JsIssue("$.fn.dropdown",
              "Dropdown plugin usage requires updating to Bootstrap 5 syntax"),
      JsIssue("$.fn.modal",
              "Modal plugin usage requires updating to Bootstrap 5 syntax"),
      JsIssue("$.fn.tooltip",
              "Tooltip plugin usage requires updating to Bootstrap 5 syntax"),
      JsIssue("$.fn.popover",
              "Popover plugin usage requires updating to Bootstrap 5 syntax"),
      JsIssue("$.fn.tab",
              "Tab plugin usage requires updating to Bootstrap 5 syntax"),
      JsIssue("$.fn.alert",
              "Alert plugin usage requires updating to Bootstrap 5 syntax"),
      JsIssue("$.fn.button",
              "Button plugin usage requires updating to Bootstrap 5 syntax"),
      JsIssue("$.fn.carousel",
              "Carousel plugin usage requires updating to Bootstrap 5 syntax"),
      JsIssue("$.fn.scrollspy",
              "Scrollspy plugin usage requires updating to Bootstrap 5 syntax"),
      JsIssue("data-toggle=",
              "data-toggle attribute should be updated to data-bs-toggle"),
      JsIssue("data-target=",
              "data-target attribute should be updated to data-bs-target"),
      JsIssue("data-dismiss=",
              "data-dismiss attribute should be updated to data-bs-dismiss"),
      JsIssue("data-parent=",
              "data-parent attribute should be updated to data-bs-parent"),
      JsIssue("data-ride=",
              "data-ride attribute should be updated to data-bs-ride"),
      JsIssue("$\\(.*\\)\\.dropdown",
              "Replace jQuery dropdown with native JavaScript and data-bs-toggle"),
      JsIssue("$\\(.*\\)\\.modal",
              "Replace with var myModal = new bootstrap.Modal(document.getElementById('myModal'))"),
      JsIssue("$\\(window\\)\\.on",
              "Replace with native window.addEventListener"),
      JsIssue("affix",
              "The Affix plugin has been removed in Bootstrap 5"),
      JsIssue("data-spy",
              "Update scrollspy to use data-bs-spy instead of data-spy")
    ]

  /** The estimated manual fixes for a file with `jsIssues` detected issues: `Math.ceil(jsIssues / 2)`. */
  function ManualFixesFor(jsIssues: nat): (r: nat)
    ensures jsIssues <= 2 * r <= jsIssues + 1
  {
    (jsIssues + 1) / 2
  }

  /** The sum of `ManualFixesFor` over a list of file summaries. */
  function ManualFixesOf(files: seq<FileSummary>): nat
  {
    if |files| == 0 then 0
    else ManualFixesOf(files[..|files| - 1]) + ManualFixesFor(files[|files| - 1].jsIssues)
  }

  const MockMigrationResults: MigrationResults :=
    MigrationResults(
      42, 36, 328, 12, 5,
      [
        MigrationWarning(JavaScriptWarning, WarningLevel, "jQuery dependency found in 8 files",
          None, None, Some("Consider replacing jQuery with native JavaScript")),
        MigrationWarning(ClassWarning, WarningLevel, "Some classes couldn't be automatically migrated",
          None, None, Some("Check the file summary for details")),
        MigrationWarning(StructureWarning, InfoLevel, "Bootstrap 5 uses different grid breakpoints",
          None, None, Some("Review your layouts for potential breakpoint issues"))
      ],
      [
        FileSummary("index.html", "html", 42, 2, [
          MigrationWarning(JavaScriptWarning, WarningLevel, "jQuery UI datepicker found",
            Some("index.html"), Some(145), Some("Replace with native date picker or Tempus Dominus"))
        ]),
        FileSummary("dashboard.html", "html", 86, 4, [
          MigrationWarning(ClassWarning, WarningLevel, "Custom class 'panel-custom' has no direct equivalent",
            Some("dashboard.html"), Some(78), Some("Update to use card component with custom styling"))
        ]),
        FileSummary("styles.css", "css", 24, 0, []),
        FileSummary("users.jsp", "jsp", 56, 3, [
          MigrationWarning(StructureWarning, ErrorLevel, "Nested containers detected",
            Some("users.jsp"), Some(112), Some("Remove nested containers as they're not recommended in Bootstrap 5"))
        ])
      ])
}
